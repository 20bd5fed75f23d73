# model-storage: the decision layer, in Dafny

`model_storage` is a thin Python wrapper that stores pickled models in S3
through boto3. Only a small part of it decides anything. This project
models that part and proves properties of the model:

- `is_s3_url` recognises S3 URLs.
- `parse_s3_url` splits `s3://bucket/path/to/key` into a bucket and a key.
  It does this through `urllib.parse.urlparse` and `str.strip('/')`, both
  modelled here as string functions. `urlparse` is not treated as an
  opaque call.
- `connect` chooses a credential strategy: a named profile, an explicit
  key pair, or the ambient chain.
- `set_from_file` defaults a missing key to the base name of the local
  path.
- `get_to_file` decides whether to create the parent directory of the
  local path.
- The four transfer operations open a default connection when none is
  given.

Modules:

- `PyStr` (`PyStr.dfy`): the `str` methods used: `find`, `rfind`,
  `rstrip`, `strip`, `split(c, 1)` and ASCII `lower`.
- `UrlLib` (`UrlLib.dfy`): `urlsplit` and `urlparse` as CPython 3.12
  defines them. It covers scheme recognition, the `//` authority,
  fragment and query splitting, and `;params` splitting for the schemes in
  `uses_params`. The input domain `InDomain` is text that does not start
  with a C0 control character or a space, holds no tab, CR or LF, and
  whose authority is ASCII without IPv6 brackets. On that domain the
  library's clean-up changes nothing and none of its `ValueError`s can be
  raised. Path, query and fragment may hold any other character, so keys
  such as `données.csv` are covered.
- `PosixPath` (`PosixPath.dfy`): `posixpath.basename` and
  `posixpath.dirname`.
- `ModelStorage` (`ModelStorage.dfy`): the operations of
  `model_storage/model_storage.py` and the properties proved of them.

Python optional string arguments are `Option<string>`. Python truthiness
of such an argument (`Truthy`) means present and non-empty. A connection
is represented by the credential strategy it was opened with
(`Credentials`).

## Model

| member | source | states |
|---|---|---|
| ModelStorage.IsS3Url | model_storage/model_storage.py:8-9 | true exactly when the URL's first five characters are `s3://` |
| ModelStorage.IsS3UrlExamples | model_storage/model_storage.py:8-9 | accepts `s3://bucket/key`; rejects the empty string, a local path, `gs://…` and upper-case `S3://…` |
| ModelStorage.UpperCaseSchemeRejected | model_storage/model_storage.py:8-9 | an `S3:` URL is rejected by the case-sensitive predicate although `urlparse` lower-cases its scheme to `s3` |
| ModelStorage.ParseS3Url | model_storage/model_storage.py:12-25 | the bucket has no `/`, `?` or `#`; the key neither starts nor ends with `/` and has no `?` or `#` |
| ModelStorage.ParseRoundTrip | model_storage/model_storage.py:22-25 | for a bucket without `/?#` and a key without `?#` or boundary `/`, `parse_s3_url("s3://" + b + "/" + k)` is `(b, k)`; the test case at tests/test_model_storage.py:25-29 is an instance (on inputs in the domain: an ASCII bucket without `[`/`]`, and no tab, CR or LF in bucket or key) |
| ModelStorage.AnySchemeRoundTrip | model_storage/model_storage.py:22-25 | the same round trip under any scheme that takes no `;params` (or a key without `;`): `x://b/k` gives `(b, k)` (on inputs in the domain: an ASCII bucket without `[`/`]`, and no tab, CR or LF in bucket or key) |
| ModelStorage.ParseAuthorityAndPath | model_storage/model_storage.py:22-24 | `scheme://b` followed by a path gives bucket `b` and the stripped path as key |
| ModelStorage.ParseS3AuthorityAndPath | model_storage/model_storage.py:22-24 | the same for the scheme `s3` |
| ModelStorage.ParseDropsSlashRuns | model_storage/model_storage.py:24 | '/' runs of any length around the key are dropped and interior ones kept, so `s3://b//a//c//` gives key `a//c` (on inputs in the domain: an ASCII bucket without `[`/`]`, and no tab, CR or LF in bucket or key) |
| ModelStorage.ParsedKeyIsStripped | model_storage/model_storage.py:24 | stripping the returned key again changes nothing |
| ModelStorage.ParseIgnoresScheme | model_storage/model_storage.py:22-25 | two URLs that differ only in their scheme (neither taking `;params`) give the same bucket and key |
| ModelStorage.ParseWithoutAuthority | model_storage/model_storage.py:22-25 | a URL without scheme (no `:` at all, or one after a non-scheme prefix such as `data/model:v2.pkl`), without `//`, `?`, `#` or `;` gives an empty bucket and the stripped input as key, with no error (`bucket/key` gives `("", "bucket/key")`) |
| ModelStorage.NoAuthorityEmptyBucket | model_storage/model_storage.py:22-23 | under any scheme, a URL whose text after the scheme does not start with `//` has an empty bucket |
| ModelStorage.S3UrlScheme | model_storage/model_storage.py:8-9 | a URL `is_s3_url` accepts parses with scheme `s3` and no params |
| ModelStorage.S3UrlHasAuthority | model_storage/model_storage.py:22-23 | for a URL `is_s3_url` accepts, the bucket is the text after `s3://` up to the first `/`, `?` or `#` or the end |
| ModelStorage.Connect | model_storage/model_storage.py:44-51 | profile iff the profile is truthy; keys iff no truthy profile and both keys truthy; ambient otherwise; the chosen name or keys are the arguments and are non-empty |
| ModelStorage.ProfileWins | model_storage/model_storage.py:44-45 | a truthy profile gives the same connection whatever keys are passed |
| ModelStorage.PartialKeyPairIsAmbient | model_storage/model_storage.py:46-51 | exactly one truthy key falls back to the ambient chain and is not an error |
| ModelStorage.ConnectionFor | model_storage/model_storage.py:68-69 | a given connection is used as is; none gives the ambient connection of `connect()` with no arguments (also lines 85-86, 105-106, 121-122) |
| ModelStorage.UploadKey | model_storage/model_storage.py:124-125 | a truthy key passes through; a falsy one (None or "") becomes the suffix of the local path after its last `/`, holding no `/`, or the whole path when it has no `/` |
| ModelStorage.UploadTarget | model_storage/model_storage.py:121-128 | the upload goes to the given bucket, under a truthy key as given and otherwise under the base name of the local path |
| ModelStorage.DefaultKeyOfJoinedPath | model_storage/model_storage.py:124-125 | without a key, `d + "/" + name` is stored under `name`, for any `d` |
| ModelStorage.Truthy | model_storage/model_storage.py:44-46 | an optional string argument is falsy exactly when it is None or "" (also `not key` at line 124) |
| ModelStorage.DefaultKeyExample | model_storage/model_storage.py:124-125 | `/tmp/x/model.bin` without a key, or with "", is stored as `model.bin` |
| ModelStorage.ParentDirToCreate | model_storage/model_storage.py:88-90 | a directory is created iff the local path holds a `/` and its dirname does not exist; it is then that dirname, a non-empty prefix of the path |
| ModelStorage.NoMakeDirsCases | model_storage/model_storage.py:88-90 | a bare file name, or a path whose dirname exists, creates nothing |
| ModelStorage.MakeDirsTarget | model_storage/model_storage.py:88-90 | for `d/name` with `d` missing, exactly `d` is created |
| UrlLib.UrlParse | model_storage/model_storage.py:22 | scheme, authority, query and fragment are those of `UrlSplit`; for a scheme outside `uses_params`, or a path without `;`, the path is `UrlSplit`'s and params are empty; otherwise path and params are the cut of `SplitParams`; either way path, or path + ";" + params, is `UrlSplit`'s path |
| UrlLib.UrlSplit | model_storage/model_storage.py:22 | the authority has no `/`, `?` or `#`; the path has no `?` or `#`; the query has no `#`; the scheme is empty or a valid scheme |
| UrlLib.UrlSplitRebuilds | model_storage/model_storage.py:22-23 | the scheme is `SplitScheme`'s, and what follows it is rebuilt from the parts: "//" and the authority when it starts with "//" (ending at the end or at `/`, `?` or `#`), else an empty authority; then the path; then nothing, "?" + query, "?" + query + "#" + fragment, or "#" + fragment |
| UrlLib.RestRebuilds | model_storage/model_storage.py:22-23 | the authority, fragment and query steps rebuild the text after the scheme in the same way |
| UrlLib.PathQueryFragment | model_storage/model_storage.py:22 | cutting off the fragment and then the query leaves a prefix followed by one of the four tail shapes |
| UrlLib.Authority | model_storage/model_storage.py:23 | after "//", the text is "//" + authority + rest with the authority free of `/?#` and the rest empty or starting with one of them; without "//" the authority is empty and the rest the whole text |
| UrlLib.SplitFirst | model_storage/model_storage.py:22 | `split(c, 1)` as used for '#' and '?': the part before holds no `c`; when `c` occurs the text is before + `c` + after, otherwise the text is whole and the after part empty |
| UrlLib.PathParams | model_storage/model_storage.py:22 | the kept path is a prefix of the path, and path, or kept path + ";" + params, rebuilds it; no cut and empty params for a scheme outside `uses_params` or a path without `;` |
| UrlLib.SplitScheme | model_storage/model_storage.py:22 | without a scheme the rest is the whole URL; with one, the scheme is the lower-cased valid text before a `:` and the rest follows that `:` |
| UrlLib.SchemeColon | model_storage/model_storage.py:22 | the scheme ends at the first `:` when that prefix is a valid scheme; otherwise no prefix ending in a `:` is a valid scheme |
| UrlLib.SplitNetloc | model_storage/model_storage.py:23 | the authority and the rest concatenate to the input after `//`; the authority has no `/?#`; the rest is empty or starts with one of them |
| UrlLib.SplitParams | model_storage/model_storage.py:22 | the path kept is a prefix of the input; with a `/`, it reaches at least to the last `/` and has no `;` from there, and either is the whole path with empty params or is followed by `;` and the params; without a `/`, the cut is at the first `;` |
| UrlLib.SplitSchemeOf | model_storage/model_storage.py:22 | `scheme + ":" + rest` splits into the lower-cased scheme and `rest` |
| UrlLib.SplitNetlocOf | model_storage/model_storage.py:23 | `//` + `b` + a path starting with `/` splits into `b` and that path |
| UrlLib.SplitAuthorityAndPath | model_storage/model_storage.py:22-23 | `scheme://b` + path is in the domain and splits into the lower-cased scheme, `b`, the path and no query or fragment |
| PyStr.Strip | model_storage/model_storage.py:24 | the result is the slice of the input after its leading run of `c`; it neither starts nor ends with `c`; everything cut off is `c` |
| PyStr.StripIdempotent | model_storage/model_storage.py:24 | stripping twice is stripping once |
| PyStr.StripUnique | model_storage/model_storage.py:24 | runs of `c` around a non-empty text without `c` at its ends strip to that text |
| PyStr.StripSurrounding | model_storage/model_storage.py:24 | the same for any text without `c` at its ends, the empty one included |
| PyStr.NoBoundaryStripIsIdentity | model_storage/model_storage.py:24 | a text without `c` at its ends is its own strip |
| PyStr.StripOneLeading | model_storage/model_storage.py:24 | one leading `c` in front of such a text is removed, and nothing else |
| PyStr.LeadingRun | model_storage/model_storage.py:24 | the leading run is all `c` and is followed by the end or by another character |
| PyStr.TrailingRun | model_storage/model_storage.py:24 | the trailing run is all `c` and is preceded by the start or by another character |
| PyStr.RStrip | model_storage/model_storage.py:88 | a prefix of the input not ending in `c`, with only `c` cut off (the `rstrip` inside `dirname`) |
| PyStr.Find | model_storage/model_storage.py:22 | the first index of `c`, or -1 exactly when `c` is absent |
| PyStr.FindFrom | model_storage/model_storage.py:23 | `find(c, start)`: an index at or after `start` holding `c` with no `c` between, or -1 when there is no `c` from `start` on |
| PyStr.SplitOnce | model_storage/model_storage.py:22 | the text is before + `c` + after, with no `c` before |
| PyStr.LowerChar | model_storage/model_storage.py:22 | an upper-case ASCII letter moves to its lower-case form; every other character is kept |
| PyStr.RFind | model_storage/model_storage.py:125 | the last index of `c`, or -1 exactly when `c` is absent |
| PyStr.Lower | model_storage/model_storage.py:22 | same length, each character lower-cased (the scheme is lower-cased) |
| PosixPath.Basename | model_storage/model_storage.py:125 | a suffix of the path with no `/`, preceded by a `/` unless it is the whole path |
| PosixPath.Dirname | model_storage/model_storage.py:88 | a prefix of the path, empty exactly when the path has no `/`, with only `/` between it and the base name; it ends in `/` only when it is all `/` and reaches the base name (the root) |
| PosixPath.BasenameJoined | model_storage/model_storage.py:125 | the base name of `d + "/" + name` is `name` for any `d` |
| PosixPath.SplitJoined | model_storage/model_storage.py:88-90 | for `d/name`, `dirname` gives `d` and `basename` gives `name` |

## Left out

- All boto3 calls are left out: session and resource construction in `connect`, and `Object(...).get()`, `Object(...).put()` and `Bucket(...).download_file` in the transfer operations. They are network I/O through a library that is not part of this model. A connection is modelled only by the credential strategy it was opened with.
- `save` and `load` are left out. They pickle to and from local files through a foreign serializer.
- Opening and reading files is left out.
- `os.path.exists` is left out. It becomes the parameter `pathExists` of `ParentDirToCreate`.
- `os.makedirs` is left out. The model returns the directory it would be given.
- The file system can change between the existence test and `makedirs` in `get_to_file`. This is not modelled.
- UrlLib.UrlSplit: modelled only on `InDomain` inputs. Outside it `urlsplit` first strips leading C0 control characters and spaces and deletes tab, CR and LF, which the model does not do.
- ModelStorage.ParseS3Url: a URL whose authority is non-ASCII or holds IPv6 brackets is not modelled. `urlsplit` checks such an authority against its Unicode NFKC normalisation, or validates the bracketed address, and may raise `ValueError`. Neither the normalisation nor the address parser is modelled. Keys with any character other than tab, CR and LF are modelled.
- Ports inside the authority are kept as part of the bucket, as `urlparse`'s `netloc` keeps them. Their parsing (`.port`, `.hostname`) is not modelled.
- UrlLib.UsesParams: the list of CPython 3.12. Older versions lack some entries, such as `rtsps`.
- ModelStorage.UploadKey: does not reject an empty default key. When the local path ends in `/` the key is `""`, as in the code.
- ModelStorage.Connect: follows the code: a lone access key or secret falls back to the ambient chain instead of raising an error. `parse_s3_url` likewise reports no malformed URL; it returns an empty bucket or key.
- setup.py is not part of this model. It holds packaging metadata only.
- tests/test_model_storage.py serves only as the source of the parse example. It exercises S3 through mocks.
- Literal instances of the parse lemmas are not stated as separate lemmas. They follow from `ParseRoundTrip`, `ParseDropsSlashRuns` and `ParseWithoutAuthority` with the literal strings as arguments.
