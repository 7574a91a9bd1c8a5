# django-zip-stream directive text, in Dafny

django-zip-stream builds Django responses that nginx's mod_zip module turns
into zip downloads. The application never sends zip bytes. It sends a body of
directive lines, one per file, and the header `X-Archive-Files: zip`. mod_zip
intercepts that body, fetches each file from its location and streams the
archive. This project models the text those responses are made of and proves
what that text means.

- `text.dfy`: `Wrappers` holds `Option`. `Text` holds two string operations
  the code uses: Python's `str()` of a non-negative integer (`Decimal`, which
  is what `%s` writes for the size) and `"\n".join` (`Join`). It also holds
  `Split` (`str.split`) and `Count` (`str.count`). The code uses neither: they
  are reference operations, used only to state the line-count and read-back
  properties of the joined text.
- `transfer_zip.dfy` (`TransferZip`): `TransferZipResponse`. It covers the
  per-file encoder `_build_content` (`EncodeLine`) and the body join (`Body`).
  It also covers the response built from them: status 200, content type
  `application/zip`, the trigger header and `Content-Disposition`. `ParseLine`
  and `ParseBody` are a reference reader of the positional line format
  `- <size> <location> <path>`, and `DispositionFilename` one of the
  disposition value. The round-trip lemmas are stated against them.
- `folder_zip.dfy` (`FolderZip`): `FolderZipResponse.__init__`. The method
  `FolderZipResponse` resolves the URL prefix, adds the trailing `/`, then
  loops over the files appending one `(path, system_path, size)` triple each.
  Its contract ties the result to the specification function `Manifest`.

What the code does not do, and the model does not either:
- It writes no CRC32 column: the first column is always `-`.
- It adds no extension to the archive name.
- It does not percent-encode locations.
- It joins lines with a bare `"\n"`.
- `FolderZipResponse.__init__` builds its triple list and stops there. It never
  encodes the list, never calls the `HttpResponse` constructor and never sets
  headers. So the model's `FolderZipResponse` returns the list and no body or
  headers. `FolderZipResponse._build_content` is a verbatim copy of
  `TransferZipResponse._build_content` and is modelled once, as `EncodeLine`.

## Model

| member | source | states |
|---|---|---|
| `Text.Decimal` | django_zip_stream/responses.py:37 | `%s` of the size: a non-empty string of decimal digits, with a leading `0` only for zero itself |
| `Text.ParseDecimalOfDecimal` | django_zip_stream/responses.py:37 | reading the size column back as a decimal number gives the size |
| `Text.DecimalInjective` | django_zip_stream/responses.py:37 | different sizes always give different size columns |
| `Text.Join` | django_zip_stream/responses.py:19-20 | `"\n".join`: the joined text starts with the first part |
| `Text.JoinEndsWithLast` | django_zip_stream/responses.py:19-20 | `"\n".join` ends with the last part, so nothing follows the last line |
| `Text.SplitJoin` | django_zip_stream/responses.py:19-20 | splitting a join of separator-free parts at the separator gives back the parts, in order |
| `Text.JoinCount` | django_zip_stream/responses.py:19-20 | a join of n >= 1 separator-free parts holds exactly n - 1 separators |
| `TransferZip.EncodeLine` | django_zip_stream/responses.py:29-38 | a directive line starts with `- `, and it holds a line break exactly when one of the two paths does |
| `TransferZip.ParseEncodedLine` | django_zip_stream/responses.py:36-37 | when the location has no space, the line splits into `-`, the decimal size and the location, and the rest after the third space is exactly the path |
| `TransferZip.SpaceInLocationIsAmbiguous` | django_zip_stream/responses.py:37 | a location holding a space lets two different triples encode to the same line |
| `TransferZip.Body` | django_zip_stream/responses.py:19-20 | the body is empty exactly when the file list is empty |
| `TransferZip.BodyLineBreaks` | django_zip_stream/responses.py:19-20 | n >= 1 files with line-break-free paths give a body with exactly n - 1 line breaks and none trailing |
| `TransferZip.BodyLines` | django_zip_stream/responses.py:19-20 | splitting the body at line breaks gives one line per file, the i-th line being the encoding of the i-th file |
| `TransferZip.ParseBodyOfBody` | django_zip_stream/responses.py:19-38 | the body of well-formed triples reads back as exactly those triples, in order, and the empty list as no directives |
| `TransferZip.ContentDisposition` | django_zip_stream/responses.py:26-27 | the value is `attachment; filename="` followed by the file name and a closing quote, and the name reads back unchanged |
| `TransferZip.TransferZipResponse` | django_zip_stream/responses.py:11-27 | status 200; body is the directive text; headers are exactly `Content-Type: application/zip`, `X-Archive-Files: zip` and a disposition naming the file |
| `FolderZip.NormalizePrefix` | django_zip_stream/responses.py:58-59 | the result ends with `/`; a prefix ending with `/` is unchanged, any other gets exactly one `/` appended |
| `FolderZip.NormalizePrefixIdempotent` | django_zip_stream/responses.py:58-59 | normalising an already normalised prefix changes nothing |
| `FolderZip.NormalizePrefixIsShortestSlashExtension` | django_zip_stream/responses.py:58-59 | the normalised prefix extends the given one and is no longer than any other extension ending with `/` |
| `FolderZip.SystemPath` | django_zip_stream/responses.py:67-70 | the location starts with the prefix, ends with the relative path, and is longer by the folder name plus one exactly when the folder name is added |
| `FolderZip.SystemPathFolderSegment` | django_zip_stream/responses.py:67-69 | with the folder name added, the folder name and a `/` follow the prefix directly |
| `FolderZip.SystemPathInjective` | django_zip_stream/responses.py:66-70 | files with different relative paths get different locations |
| `FolderZip.ManifestAt` | django_zip_stream/responses.py:63-75 | the triple list has one triple per file, in input order, the i-th holding the i-th relative path and size unchanged |
| `FolderZip.ManifestSnoc` | django_zip_stream/responses.py:73-75 | appending the next file's triple extends the list built for the files before it |
| `FolderZip.FolderZipResponse` | django_zip_stream/responses.py:44-75 | one triple per file in input order; each has the file's relative path and size unchanged and a location built from the normalised prefix, optionally the folder name and `/`, then the relative path |

## Left out

- Django's `HttpResponse` is not modelled as an object. The response is a value holding the status, the body and a header map. The `Content-Type` entry stands for what the `content_type` argument sets.
- The `settings.STATIC_URL` lookup is global configuration. It is a parameter (`staticUrl`).
- Walking the folder (`Path.rglob`, `is_file`, `stat().st_size`) is file-system I/O. The files are an input sequence of `(relative path, size)` pairs in walk order.
- `os.path.relpath` and `Path.name` are library calls. The relative path and the folder's name are given strings.
- The `filename` argument of `FolderZipResponse.__init__` is never used by the code, so the model's method does not take it.
- `_build_content` unpacks any 3-element tuple, and a tuple of another length raises `ValueError`. The model types the triple as `FileInfo`, so that error cannot arise. The size is a `nat`, as it is when it comes from `st_size`. A caller-supplied size of another type, such as a string, is not modelled.
- `ParseLine`, `ParseBody` and `DispositionFilename` are not part of the code. They are reference readers of mod_zip's line format and of the disposition value, written to state what the text means. mod_zip's own parser is not part of this model.
- TransferZip.TransferZipResponse: does not model the checks Django applies when the headers are set. Django raises `BadHeaderError` for a header value containing `\n` or `\r`, so a file name such as `"a\nb"` makes the code raise, while the model returns a response. Django also RFC 2047-encodes a value that is not Latin-1, so for such a file name the header sent is not literally `attachment; filename="…"`. The model gives the value the code hands to Django.
- FolderZip.FolderZipResponse: does not model the `AttributeError` raised when `url_prefix` and `settings.STATIC_URL` are both `None` (Django's default for the setting): `None.endswith` fails. The static URL is a `string` in the model, so it cannot be missing.
- TransferZip.EncodeLine: does not model a negative integer size from a caller of `TransferZipResponse`, which `%s` writes as, for example, `-5`. The size is a `nat`, as it always is when it comes from `st_size`.
