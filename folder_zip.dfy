/**
 FolderZipResponse: the `(path, system_path, size)` triples built for every
 file under a folder. The folder walk is an input here: each file arrives as
 its path relative to the folder and its byte size, in walk order.
 */
module FolderZip {
  import opened Wrappers
  import opened TransferZip

  /** `s.endswith('/')`. */
  predicate EndsWithSlash(s: string) {
    |s| > 0 && s[|s| - 1] == '/'
  }

  /** The URL prefix in force: the one given, or the static URL setting when none is. */
  function ResolvePrefix(urlPrefix: Option<string>, staticUrl: string): (prefix: string)
    ensures urlPrefix.Some? ==> prefix == urlPrefix.value
    ensures urlPrefix.None? ==> prefix == staticUrl
  {
    match urlPrefix
    case Some(given) => given
    case None => staticUrl
  }

  /**
   The trailing-slash rule: the result ends with `/`; a prefix already ending
   with `/` is kept as it is, any other prefix gets exactly one `/` appended.
   */
  function NormalizePrefix(prefix: string): (r: string)
    ensures EndsWithSlash(r)
    ensures EndsWithSlash(prefix) ==> r == prefix
    ensures !EndsWithSlash(prefix) ==> r == prefix + "/"
  {
    if EndsWithSlash(prefix) then prefix else prefix + "/"
  }

  /** Normalising twice is normalising once. */
  lemma NormalizePrefixIdempotent(prefix: string)
    ensures NormalizePrefix(NormalizePrefix(prefix)) == NormalizePrefix(prefix)
  {
  }

  /**
   The normalised prefix is the shortest string that extends the given one and
   ends with `/`.
   */
  lemma NormalizePrefixIsShortestSlashExtension(prefix: string, other: string)
    requires prefix <= other && EndsWithSlash(other)
    ensures prefix <= NormalizePrefix(prefix)
    ensures |NormalizePrefix(prefix)| <= |other|
  {
  }

  /**
   The location of one file: the prefix, then the folder's own name and a `/`
   when `addFolderName` is set, then the relative path.
   */
  function SystemPath(prefix: string, folderName: string, addFolderName: bool, rel: string): (p: string)
    ensures prefix <= p
    ensures |p| == |prefix| + (if addFolderName then |folderName| + 1 else 0) + |rel|
    ensures p[|p| - |rel|..] == rel
  {
    prefix + (if addFolderName then folderName + "/" else "") + rel
  }

  /** With `addFolderName` the folder's name is a whole path segment right after the prefix. */
  lemma SystemPathFolderSegment(prefix: string, folderName: string, rel: string)
    ensures var p := SystemPath(prefix, folderName, true, rel);
            p[|prefix|..|prefix| + |folderName|] == folderName && p[|prefix| + |folderName|] == '/'
  {
  }

  /** Two files with different relative paths never share a location. */
  lemma SystemPathInjective(prefix: string, folderName: string, addFolderName: bool, rel1: string, rel2: string)
    requires SystemPath(prefix, folderName, addFolderName, rel1) == SystemPath(prefix, folderName, addFolderName, rel2)
    ensures rel1 == rel2
  {
  }

  /** The triple for one `(relative path, size)` file. */
  function Entry(prefix: string, folderName: string, addFolderName: bool, file: (string, nat)): (e: FileInfo)
  {
    FileInfo(file.0, SystemPath(prefix, folderName, addFolderName, file.0), file.1)
  }

  /** The triple list after the loop has appended one triple per file, in order. */
  function Manifest(prefix: string, folderName: string, addFolderName: bool, files: seq<(string, nat)>): (m: seq<FileInfo>)
    decreases |files|
  {
    if files == [] then []
    else Manifest(prefix, folderName, addFolderName, files[..|files| - 1])
         + [Entry(prefix, folderName, addFolderName, files[|files| - 1])]
  }

  /**
   One triple per file, in input order: the i-th carries the i-th relative path
   and size unchanged and that path's location.
   */
  lemma {:induction false} ManifestAt(prefix: string, folderName: string, addFolderName: bool, files: seq<(string, nat)>)
    ensures var m := Manifest(prefix, folderName, addFolderName, files);
            |m| == |files| &&
            forall i :: 0 <= i < |files| ==> m[i] == Entry(prefix, folderName, addFolderName, files[i])
    decreases |files|
  {
    if files != [] {
      ManifestAt(prefix, folderName, addFolderName, files[..|files| - 1]);
    }
  }

  /** Appending the triple of the next file extends the list of the files before it. */
  lemma ManifestSnoc(prefix: string, folderName: string, addFolderName: bool, files: seq<(string, nat)>, k: nat)
    requires k < |files|
    ensures Manifest(prefix, folderName, addFolderName, files[..k + 1])
         == Manifest(prefix, folderName, addFolderName, files[..k]) + [Entry(prefix, folderName, addFolderName, files[k])]
  {
    assert files[..k + 1][..k] == files[..k];
  }

  /**
   `FolderZipResponse.__init__` as far as it goes: resolve and normalise the
   prefix, then append one triple per file. The code keeps the triples in a
   local list and neither encodes them nor sets a body or headers, so the model
   returns that list.
   */
  method FolderZipResponse(folderName: string, files: seq<(string, nat)>,
                           urlPrefix: Option<string>, staticUrl: string, addFolderName: bool)
    returns (tuples: seq<FileInfo>)
    ensures |tuples| == |files|
    ensures forall i :: 0 <= i < |files| ==>
              && tuples[i].path == files[i].0
              && tuples[i].size == files[i].1
              && tuples[i].systemPath ==
                 SystemPath(NormalizePrefix(ResolvePrefix(urlPrefix, staticUrl)), folderName, addFolderName, files[i].0)
    ensures tuples == Manifest(NormalizePrefix(ResolvePrefix(urlPrefix, staticUrl)), folderName, addFolderName, files)
  {
    var prefix := if urlPrefix.None? then staticUrl else urlPrefix.value;
    if !EndsWithSlash(prefix) {
      prefix := prefix + "/";
    }
    tuples := [];
    for k := 0 to |files|
      invariant tuples == Manifest(prefix, folderName, addFolderName, files[..k])
    {
      var path := files[k].0;
      var systemPath := prefix;
      if addFolderName {
        systemPath := systemPath + folderName + "/";
      }
      systemPath := systemPath + path;
      var size := files[k].1;
      assert systemPath == SystemPath(prefix, folderName, addFolderName, path);
      tuples := tuples + [FileInfo(path, systemPath, size)];
      ManifestSnoc(prefix, folderName, addFolderName, files, k);
    }
    assert files[..|files|] == files;
    ManifestAt(prefix, folderName, addFolderName, files);
  }
}
