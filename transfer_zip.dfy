/**
 TransferZipResponse: the mod_zip directive text for an explicit file list and
 the headers that make nginx's mod_zip module assemble the archive from it.

 One directive line per file, in the positional format
 `<crc32> <size> <location> <name in archive>`, where this code always writes
 `-` ("no checksum") in the first column. ParseLine and ParseBody are a
 reference reader of that format, used to state what the text means.
 */
module TransferZip {
  import opened Wrappers
  import opened Text

  /** The `(path, system_path, size)` triple: name inside the archive, location nginx fetches, byte size. */
  datatype FileInfo = FileInfo(path: string, systemPath: string, size: nat)

  /** The placeholder written in the checksum column. */
  const NoChecksum: string := "-"

  /** The response status and content type handed to the response object. */
  const Status: nat := 200
  const ContentType: string := "application/zip"

  /** The header that makes mod_zip intercept the body, and its value. */
  const ArchiveFilesHeader: string := "X-Archive-Files"
  const ArchiveFilesTrigger: string := "zip"

  const ContentTypeHeader: string := "Content-Type"
  const ContentDispositionHeader: string := "Content-Disposition"
  const DispositionPrefix: string := "attachment; filename=\""

  /**
   `_build_content`: one directive line, `"- %s %s %s" % (size, system_path, path)`.
   The line opens with the placeholder column and a space, and it holds a
   line break only when one of the two paths does.
   */
  function EncodeLine(f: FileInfo): (line: string)
    ensures |line| >= 4 && line[0] == '-' && line[1] == ' '
    ensures '\n' in line <==> '\n' in f.systemPath || '\n' in f.path
  {
    NoChecksum + " " + Decimal(f.size) + " " + f.systemPath + " " + f.path
  }

  /**
   Reads one directive line back: the checksum column must be `-`, the size
   column a non-empty digit string, the location runs to the third space and
   the name in the archive is everything after it (spaces included).
   */
  function ParseLine(line: string): (r: Option<FileInfo>)
  {
    match SplitAtFirst(line, ' ')
    case None => None
    case Some((crc, afterCrc)) =>
      if crc != NoChecksum then None
      else match SplitAtFirst(afterCrc, ' ')
        case None => None
        case Some((digits, afterSize)) =>
          if digits == [] || !IsDigits(digits) then None
          else match SplitAtFirst(afterSize, ' ')
            case None => None
            case Some((location, name)) => Some(FileInfo(name, location, ParseDecimal(digits)))
  }

  /**
   The columns of a line are recoverable when the location holds no space:
   the fields come back as `-`, the size and the location, and the rest after
   the third space is exactly the path, whatever spaces it holds.
   */
  lemma ParseEncodedLine(f: FileInfo)
    requires ' ' !in f.systemPath
    ensures ParseLine(EncodeLine(f)) == Some(f)
  {
    var digits := Decimal(f.size);
    var afterSize := f.systemPath + [' '] + f.path;
    var afterCrc := digits + [' '] + afterSize;
    assert EncodeLine(f) == NoChecksum + [' '] + afterCrc;
    SplitAtFirstOfField(NoChecksum, ' ', afterCrc);
    assert ' ' !in digits by {
      assert forall i :: 0 <= i < |digits| ==> '0' <= digits[i] <= '9';
    }
    SplitAtFirstOfField(digits, ' ', afterSize);
    SplitAtFirstOfField(f.systemPath, ' ', f.path);
    ParseDecimalOfDecimal(f.size);
  }

  /** A location holding a space makes two different triples encode to the same line. */
  lemma SpaceInLocationIsAmbiguous()
    ensures var a := FileInfo("c", "a b", 1);
            var b := FileInfo("b c", "a", 1);
            a != b && EncodeLine(a) == EncodeLine(b)
  {
  }

  /** The triples the reader recovers losslessly: no space in the location, no line break anywhere. */
  predicate WellFormed(f: FileInfo) {
    ' ' !in f.systemPath && '\n' !in f.systemPath && '\n' !in f.path
  }

  /** The list comprehension: the encoded line of every file, in order. */
  function Lines(files: seq<FileInfo>): (lines: seq<string>)
    ensures |lines| == |files|
    ensures forall i :: 0 <= i < |files| ==> lines[i] == EncodeLine(files[i])
  {
    seq(|files|, i requires 0 <= i < |files| => EncodeLine(files[i]))
  }

  /**
   The response body: `"\n".join(...)` of the encoded lines, with no trailing
   line break; it is empty exactly when there are no files.
   */
  function Body(files: seq<FileInfo>): (content: string)
    ensures content == "" <==> |files| == 0
  {
    Join(Lines(files), '\n')
  }

  /**
   With line-break-free paths, n >= 1 files give exactly n - 1 line breaks,
   none of them at the end of the body.
   */
  lemma BodyLineBreaks(files: seq<FileInfo>)
    requires |files| >= 1
    requires forall i :: 0 <= i < |files| ==> '\n' !in files[i].systemPath && '\n' !in files[i].path
    ensures Count(Body(files), '\n') == |files| - 1
    ensures var content := Body(files); content[|content| - 1] != '\n'
  {
    var lines := Lines(files);
    JoinCount(lines, '\n');
    JoinEndsWithLast(lines, '\n');
    var content := Body(files);
    var last := lines[|lines| - 1];
    assert content[|content| - 1] == last[|last| - 1] by {
      assert content[|content| - |last|..][|last| - 1] == content[|content| - 1];
    }
    assert '\n' !in last;
  }

  /** With line-break-free paths, the i-th line of the body is the encoding of the i-th file. */
  lemma BodyLines(files: seq<FileInfo>)
    requires |files| >= 1
    requires forall i :: 0 <= i < |files| ==> '\n' !in files[i].systemPath && '\n' !in files[i].path
    ensures var lines := Split(Body(files), '\n');
            |lines| == |files| && forall i :: 0 <= i < |files| ==> lines[i] == EncodeLine(files[i])
  {
    SplitJoin(Lines(files), '\n');
  }

  /** Reads a body back line by line; the empty body holds no directives. */
  function ParseBody(content: string): (entries: seq<Option<FileInfo>>)
  {
    if content == "" then []
    else
      var lines := Split(content, '\n');
      seq(|lines|, i requires 0 <= i < |lines| => ParseLine(lines[i]))
  }

  /** The body of well-formed triples reads back as exactly those triples, in order. */
  lemma ParseBodyOfBody(files: seq<FileInfo>)
    requires forall i :: 0 <= i < |files| ==> WellFormed(files[i])
    ensures var entries := ParseBody(Body(files));
            |entries| == |files| && forall i :: 0 <= i < |files| ==> entries[i] == Some(files[i])
  {
    if |files| >= 1 {
      BodyLines(files);
      forall i | 0 <= i < |files|
        ensures ParseLine(EncodeLine(files[i])) == Some(files[i])
      {
        ParseEncodedLine(files[i]);
      }
    }
  }

  /** `attachment; filename="<filename>"`. */
  function ContentDisposition(filename: string): (value: string)
    ensures DispositionPrefix <= value && value[|value| - 1] == '"'
    ensures DispositionFilename(value) == Some(filename)
  {
    DispositionPrefix + filename + "\""
  }

  /** Reads the file name back out of a disposition value, quotes stripped. */
  function DispositionFilename(value: string): (r: Option<string>)
  {
    if |value| > |DispositionPrefix| && value[..|DispositionPrefix|] == DispositionPrefix && value[|value| - 1] == '"'
    then Some(value[|DispositionPrefix|..|value| - 1])
    else None
  }

  /** What the response object holds once built: status, body and headers. */
  datatype Response = Response(status: nat, content: string, headers: map<string, string>)

  /**
   `TransferZipResponse(filename, files)`: a 200 response of type
   `application/zip` whose body is the directive text and whose headers are the
   mod_zip trigger and the download name, and no other headers.
   */
  function TransferZipResponse(filename: string, files: seq<FileInfo>): (r: Response)
    ensures r.status == 200 && r.content == Body(files)
    ensures r.headers.Keys == {ContentTypeHeader, ArchiveFilesHeader, ContentDispositionHeader}
    ensures r.headers[ContentTypeHeader] == "application/zip"
    ensures r.headers[ArchiveFilesHeader] == "zip"
    ensures DispositionFilename(r.headers[ContentDispositionHeader]) == Some(filename)
  {
    Response(Status, Body(files),
      map[ContentTypeHeader := ContentType,
          ArchiveFilesHeader := ArchiveFilesTrigger,
          ContentDispositionHeader := ContentDisposition(filename)])
  }
}
