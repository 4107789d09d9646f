# thinkphp-upload: a Dafny model of the upload layer

This project models the upload layer of `cdyun303/thinkphp-upload`, a ThinkPHP storage
library with one shared base and two storage drivers:

- `BaseUpload`, the driver-independent part. It holds:
  - the global extension and size gate;
  - the builder that turns a custom rule map into a framework rule string;
  - the custom-name check;
  - generation of `<YmdHis>_<random>.<ext>` names;
  - the `path`, `fileName`, `validateRule` and `fileInfo` state every driver shares.
- The Alibaba OSS driver: the required-config check, the lazily created SDK client, object keys
  and URLs, the 10 MiB choice between one `putObject` and a multipart upload, the 3 MiB part
  layout and the loop that collects the etags, the status-code rules, and presigned links.
- The local-disk driver: the storage directory under the disk root (backslashes normalised),
  its creation on demand, storing through the framework facade, stream writes, the
  `ltrim`-based delete, and unsigned links.

Modules, one concept each:

- `Common` (common.dfy): bytes, `Option`/`Result`/`Outcome`, the error kinds the code raises,
  and PHP string truthiness.
- `Strings` (strings.dfy): the PHP string functions the core uses:
  - `explode`/`implode` on one character;
  - single-character `str_replace`;
  - `ltrim` with its character mask;
  - `basename` and the `pathinfo` extension;
  - decimal digits.
- `Upload` (base_upload.dfy): `BaseUpload`.
- `OssSdk` (oss_sdk.dfy): the SDK boundary. Each call is a request record, the remote service is
  a `Server` value of total functions, and the client is the `OssClient` class.
- `OssParts` (oss_parts.dfy): multipart arithmetic and the part loop.
- `OssDriver` (oss.dfy): the `Oss` class.
- `LocalDriver` (local.dfy): the `Local` class, the `Disk` class that stands for the operating
  system's filesystem, and the `Facade` value for the framework's filesystem facade.

Inheritance is modelled as composition: each driver holds a `BaseUpload` object as `base` and
updates its fields in place. An exception becomes an `Err`/`Fail` value carrying an `Error` kind.
The global policy (`fileSize`, `imgSize`, `fileExt`, `imgExt`) is passed in as a value. The
framework validator is passed in as an `accepts` predicate on the rule string. `date("YmdHis")`
and `rand(10000, 99999)` are parameters constrained to their ranges.

Two behaviours of the code are worth stating outright:

- A failed `completeMultipartUpload` raises the same error as a failed put (`UploadFailed`).
- The global gate runs even when a custom rule is set. The custom rule is checked after it and
  does not replace it.

The rule example in the docblock of `validate` (`'filesize' => …`, `'image' => 'image:…'`) does
not match what `extractValidate` reads: it looks for `fileSize` and adds the `image:` prefix
itself. The model follows the code, and two lemmas show the consequence.

## Model

| member | source | states |
|---|---|---|
| Strings.Split | src/BaseUpload.php:169 | `explode` gives at least one piece and no piece contains the separator |
| Strings.JoinSplit | src/BaseUpload.php:169 | imploding the pieces of an explode gives the original string back |
| Strings.SplitJoin | src/BaseUpload.php:215 | exploding an implode of separator-free pieces gives the pieces back |
| Strings.Join | src/BaseUpload.php:215 | PHP `implode`: the pieces with the separator between each two, "" for none |
| Strings.ReplaceCharRemoves | src/driver/Local.php:82 | after replacing a character it no longer occurs, and a second replacement changes nothing |
| Strings.ReplaceChar | src/driver/Local.php:82 | single-character `str_replace`: the same length, each occurrence of `from` replaced by `to` and every other character kept |
| Strings.LTrim | src/driver/Local.php:134 | the result is a suffix, every stripped character is in the mask, and the result does not start with a mask character |
| Strings.LTrimUnique | src/driver/Local.php:134 | any suffix with those three properties is the `ltrim` result |
| Strings.ExtensionOf | src/BaseUpload.php:79 | the `pathinfo` extension of `stem.ext` (no '/' anywhere, no '.' in ext) is `ext` |
| Strings.Extension | src/BaseUpload.php:79 | the `pathinfo` extension: the text after the last dot of the base name, or "" when it has no dot |
| Strings.BasenameOfJoined | src/driver/Local.php:60 | the base name of `dir/name` is `name` when the name has no slash |
| Strings.Basename | src/driver/Local.php:60 | PHP `basename` (the stored file's `getFilename`): trailing slashes dropped, then the text after the last slash |
| Strings.DigitsRoundTrip | src/BaseUpload.php:225 | the decimal text of a number is all digits and reads back as that number |
| Strings.NatToStringLength | src/BaseUpload.php:225 | a number in [10^k, 10^(k+1)) has k + 1 digits |
| Strings.NatToString | src/BaseUpload.php:225 | PHP's string form of a natural number: its decimal digits, at least one |
| Upload.CsvEntries | src/BaseUpload.php:168-172 | a comma-separated setting lists exactly the names it was written from |
| Upload.Entries | src/BaseUpload.php:168-172 | the entries of a list setting: the list itself, or a comma-separated string exploded on ',' (also `name`, src/BaseUpload.php:81) |
| Upload.ValidateFileByConfig | src/BaseUpload.php:163-189 | passes exactly when the extension is allowed, the size is at most `fileSize` KB and an image extension is at most `imgSize` KB; each failure gives its own error, first failing check first |
| Upload.ExtensionCheckedFirst | src/BaseUpload.php:175-177 | a disallowed extension gives the same verdict whatever the size |
| Upload.SizeBoundary | src/BaseUpload.php:179-181 | exactly `fileSize * 1024` bytes pass and one byte more fails |
| Upload.ExtractValidate | src/BaseUpload.php:197-216 | the rule string is the `name:value` flags of the present keys, in the fixed order, joined by '\|', or the invalid-rule error when none is present |
| Upload.RuleText | src/BaseUpload.php:197-216 | the definition the builder is proved against: the `name:value` flags of the present keys in the fixed order, joined by '\|', or the invalid-rule error when there are none |
| Upload.RuleTextRejectsIff | src/BaseUpload.php:212-214 | the rule map is refused exactly when none of `fileSize`, `fileExt`, `fileMime`, `image` is set |
| Upload.RuleItemsIgnoreOtherKeys | src/BaseUpload.php:199-211 | keys other than the four known ones do not change the rule |
| Upload.RuleItemsMembership | src/BaseUpload.php:199-211 | a flag for a key is emitted exactly when that key is set, carrying its value |
| Upload.RuleItemsOrdered | src/BaseUpload.php:199-211 | the emitted flags follow the fixed key order |
| Upload.RuleTextSplits | src/BaseUpload.php:215 | when none of the four known values holds '\|', splitting the rule string on '\|' gives the flags back |
| Upload.RuleTextAllKeys | src/BaseUpload.php:199-215 | with all four keys set, the rule is `filesize:…\|fileExt:…\|fileMime:…\|image:…` |
| Upload.LowerCaseSizeKeyRefused | src/BaseUpload.php:200-214 | a map keyed `filesize` (lower case) holds no known rule and is refused |
| Upload.ImageRuleDoublesPrefix | src/BaseUpload.php:209-211 | an `image` value written as `image:…` comes out as `image:image:…` |
| Upload.Admission | src/driver/Oss.php:44-53 | the admission step both drivers share (also src/driver/Local.php:35-44): a file is admitted exactly when the global gate passes and, with a custom rule set, its rule string builds and the validator accepts it; a gate failure is that error, an unbuildable rule the invalid-rule error, and a rejection carries the rule string the validator refused |
| Upload.AdmissionKeepsGlobalGate | src/driver/Oss.php:47-53 | a set custom rule never admits a file the global gate refuses, and a gate failure is reported unchanged |
| Upload.GeneratedNameShape | src/BaseUpload.php:223-226 | a truthy custom name is used as is; otherwise the name is 14 timestamp digits, '_', the 5 random digits, '.', the extension |
| Upload.GeneratedNameExtension | src/BaseUpload.php:225 | the extension of a generated name is the file's extension |
| Upload.GenerateFileName | src/BaseUpload.php:223-226 | the stored name: the custom name when truthy, otherwise `<stamp>_<random>.<ext>` |
| Upload.BaseUpload.constructor | src/BaseUpload.php:33-52 | the config is stored; the path is "files", the name empty, the rule map empty, no result field set |
| Upload.BaseUpload.To | src/BaseUpload.php:65-69 | the path becomes the argument |
| Upload.BaseUpload.Name | src/BaseUpload.php:77-87 | the name is stored exactly when its extension is allowed; otherwise the disallowed-type error and the old name stays |
| Upload.NameAllowed | src/BaseUpload.php:79-82 | a custom name is allowed exactly when its `pathinfo` extension is one of the `fileExt` entries |
| Upload.BaseUpload.Validate | src/BaseUpload.php:96-102 | a non-empty rule map replaces the stored one and an empty one leaves it unchanged |
| OssDriver.ConfigFieldsNamed | src/driver/Oss.php:26 | the required settings are exactly `aki`, `aks`, `endpoint`, `region` |
| OssDriver.ValidateConfig | src/driver/Oss.php:358-365 | passes exactly when every required field is set; otherwise it names the first missing field in order |
| OssDriver.Oss.Initialize | src/driver/Oss.php:343-348 | construction succeeds exactly when the four settings are present, with the base defaults, the disk root as bucket and no client yet |
| OssDriver.Oss.Valid | src/driver/Oss.php:169-184 | the four settings are present, and a cached client carries exactly their credentials, endpoint and region |
| OssDriver.Oss.CreateClient | src/driver/Oss.php:169-184 | the first call builds a client from the four settings and caches it; later calls return the cached instance |
| OssDriver.SetFileKeyEndsWithName | src/driver/Oss.php:160-163 | the key ends with the name, its base name is the name, and with a truthy path it starts with `path/` |
| OssDriver.SetFileKey | src/driver/Oss.php:160-163 | the object key: `path/name` when the path is truthy, otherwise the name alone |
| OssDriver.BucketUrlFallback | src/driver/Oss.php:200-205 | a truthy configured URL is used as is; an unset URL, "" and "0" fall back to `https://<bucket>.<endpoint>` |
| OssDriver.BucketUrl | src/driver/Oss.php:200-205 | the bucket address: the configured URL when set and truthy, otherwise `https://<bucket>.<endpoint>` |
| OssDriver.Oss.GetBucketUrl | src/driver/Oss.php:200-205 | the bucket address for the driver's disk URL, bucket and configured endpoint |
| OssDriver.ObjectUrlKey | src/driver/Oss.php:191-194 | the object URL is the bucket URL, a slash and the key, and the key can be read back from it |
| OssDriver.ObjectUrl | src/driver/Oss.php:191-194 | the object URL: the bucket URL, '/', the key |
| OssDriver.Oss.ProcessFileUrl | src/driver/Oss.php:191-194 | the object URL of a key under the driver's bucket address |
| OssParts.ThresholdBoundary | src/driver/Oss.php:59 | exactly 10485760 bytes go in one request and one byte more goes multipart |
| OssParts.UsesMultipart | src/driver/Oss.php:59 | a payload goes multipart exactly when it is larger than 10485760 bytes |
| OssDriver.TransferDispatch | src/driver/Oss.php:58-63 | up to 10 MiB only the single put decides success, above it only the multipart calls do |
| OssDriver.TransferSucceeds | src/driver/Oss.php:58-63 | the transfer `move` picks succeeds: the multipart upload above 10 MiB, the single put answering 200 otherwise |
| OssDriver.MultipartSucceeds | src/driver/Oss.php:87-143 | initiate answers, every part is accepted, and completion with the collected parts answers 200 |
| OssParts.PartsCover | src/driver/Oss.php:96-98 | there is at least one part; the parts reach past the end and all but the last start inside the file |
| OssParts.PartsNum | src/driver/Oss.php:98 | the part count `intdiv(size, 3 MiB) + 1` |
| OssParts.ExactMultipleExtraPart | src/driver/Oss.php:98 | an exact multiple of k parts of 3 MiB is sent as k + 1 parts |
| OssParts.ExactMultipleLastPartEmpty | src/driver/Oss.php:98-115 | for an exact multiple of 3 MiB, the last part's body is empty |
| OssParts.Window | src/driver/Oss.php:115 | a window holds at most `limit` bytes: the bytes from the offset on, or nothing past the end |
| OssParts.PartBody | src/driver/Oss.php:115 | the body of part n: the 3 MiB window of the file from offset (n - 1) * 3 MiB |
| OssParts.PartLayout | src/driver/Oss.php:96-115 | each part starts inside the file, parts before the last are full and the last holds the remainder |
| OssParts.PartsContiguous | src/driver/Oss.php:115 | part n + 1 starts where part n ends |
| OssParts.Reassemble | src/driver/Oss.php:101-127 | the part bodies in part-number order concatenate to the whole file |
| OssParts.CompletedParts | src/driver/Oss.php:119-125 | the completion list has one entry per part, numbered 1..n in order |
| OssParts.UploadParts | src/driver/Oss.php:99-127 | the loop succeeds exactly when every part is accepted; the list then holds part i + 1 with its etag at position i |
| OssDriver.Oss.PartUpload | src/driver/Oss.php:78-152 | succeeds exactly when initiate answers, every part is accepted and completion answers 200; it then gives the key and its object URL |
| OssDriver.Oss.DirectUpload | src/driver/Oss.php:214-237 | succeeds exactly when the put answers 200; it then gives the key and its object URL |
| OssDriver.Oss.Sign | src/driver/Oss.php:259-276 | the presigned link for the bucket, the key and the given expiry, or a sign error |
| OssDriver.Oss.SignUrl | src/driver/Oss.php:246-250 | the URL of a presign with the default expiry of 7200 seconds |
| OssDriver.Oss.Move | src/driver/Oss.php:39-69 | the admission error, an upload error, or the four result fields: original name, key, object URL, signed link (set one at a time, so a sign error leaves the first three set) |
| OssDriver.Oss.Stream | src/driver/Oss.php:285-312 | a put of the content under the path-prefixed key; on 200 the key, its object URL and the signed link, otherwise the upload error with the result fields unchanged (the client may by then have been created and cached) |
| OssDriver.Oss.Delete | src/driver/Oss.php:320-336 | succeeds exactly when the delete answers 204 |
| LocalDriver.Disk.MakeDir | src/driver/Local.php:93 | creating a directory fails where a file or a directory already stands or the system refuses the path, and otherwise adds it |
| LocalDriver.Disk.PutContents | src/driver/Local.php:111 | writing fails onto a directory or where the system refuses the path, and otherwise stores the content there |
| LocalDriver.Disk.Unlink | src/driver/Local.php:140 | the path is no longer a file, and the call succeeds exactly when it was one |
| LocalDriver.Disk.FileExists | src/driver/Local.php:137 | `file_exists`: true for a file and for a directory |
| LocalDriver.NormalizePath | src/driver/Local.php:82 | the joined `root/path` has no backslash and the length of the join |
| LocalDriver.NormalizePathChars | src/driver/Local.php:82 | each character of the join survives except backslashes, which become slashes |
| LocalDriver.Local.constructor | src/driver/Local.php:168-172 | the base defaults, and the default disk's root as the storage root |
| LocalDriver.Local.GetBucketPath | src/driver/Local.php:73-83 | the path-not-found error when the root is not a directory, the unwritable error when it is not writable, otherwise the normalised `root/path` without backslashes |
| LocalDriver.Local.CheckBucketPath | src/driver/Local.php:91-94 | true when the directory exists, otherwise the result of creating it (which fails over an existing file) |
| LocalDriver.Local.PutFileAs | src/driver/Local.php:53-56 | the content is stored at the facade path of `dir/name`, answering `dir/name`, or nothing when that path is a directory or refused |
| LocalDriver.Local.Move | src/driver/Local.php:30-64 | the admission error, the root errors or the cannot-write error, each changing nothing; the write error, which leaves the files and the result unchanged but keeps the directory just created; otherwise the file is stored and the result holds the original name, the stored base name, and the same URL in both links |
| LocalDriver.StreamTargetTruthy | src/driver/Local.php:110-114 | the stream target `dir/key` is never a falsy string, so the check after the write never fires |
| LocalDriver.Local.Stream | src/driver/Local.php:103-119 | after the directory checks it always succeeds, whether or not the write took place; the name is the key and both links are the URL of `/path/key` |
| LocalDriver.DeleteMaskOverstrips | src/driver/Local.php:134 | with URL "/storage", "/storage/test.png" is stripped to ".png": the URL is a character mask, not a prefix |
| LocalDriver.Local.DeleteTarget | src/driver/Local.php:132-136 | the path `delete` acts on: the facade path of the file path with the URL's characters stripped from its front |
| LocalDriver.Local.Delete | src/driver/Local.php:127-145 | a disk without a URL raises (`ltrim` refuses null under strict types) and removes nothing; otherwise it succeeds exactly when the stripped, resolved path exists, then removes it, and a missing path is the not-found error |
| LocalDriver.Local.SignIgnoresExpiry | src/driver/Local.php:154-161 | the result is the public URL of the key, the key and the unsupported-signing marker, whatever the expiry |
| LocalDriver.Local.Sign | src/driver/Local.php:154-161 | the facade URL of the key, the key, and the unsupported-signing marker |

## Left out

- The Alibaba OSS SDK and its cryptography. Each call's answer comes from the `Server`
  parameter. A raising `initiateMultipartUpload`, `uploadPart` or `presign` is `None`. A raising
  `putObject`, `completeMultipartUpload` or `deleteObject` cannot be told apart from an answer:
  it is folded into a status other than 200 (204 for delete), which the code reports the same way.
- OssDriver.Oss.PartUpload: a failed multipart upload is not aborted, and neither is it in the
  code. The parts already sent stay with the service, which is not modelled.
- `LazyOpenStream`, `LimitStream`, `fopen` and `filesize`: only the byte window each part reads
  is modelled. The file contents are the `content` bytes.
- The framework's validator (`validate([...])->check(...)`) is the `accepts` parameter. Its
  rules (size, mime, image dimensions) are not modelled.
- The ThinkPHP `Filesystem` facade. `url()` and `path()` are the functions in `Facade`, and the
  default disk's `root` and `url` are `DiskConfig`. The slashes the facade trims inside
  `putFileAs` are not modelled.
- src/UploadEnforcer.php and `UseTool::getConfig` are not part of this model. The policy is
  passed in as a `Policy` value, and a missing setting's default is whatever the caller passes.
- `in_array` is taken as exact string membership. PHP's loose comparison of numeric strings is
  not modelled.
- Strings.LTrim: a `..` range in the mask (as in "a..z") is treated as literal characters.
  The mask is also a set of characters, while PHP's is a set of bytes. With non-ASCII text the
  two differ: `ltrim("é.png", "è")` strips the shared UTF-8 lead byte in PHP, but nothing in
  the model. So `delete` with a disk URL holding non-ASCII characters may strip other bytes in
  PHP. `str_replace`, `basename`, `pathinfo` and `explode` are unaffected, because '\\', '/',
  '.', ',' and '|' never occur inside a UTF-8 multibyte sequence.
- `date()` and `rand()`: the timestamp and the random suffix are parameters limited to their
  output ranges.
- `prepareFiles` and the framework's `File`: the extension, the size and the original name come
  in as an `UploadedFile` value. The `!$file` and `is_string` checks cannot fail under
  `strict_types`, so they are not modelled.
- Null configuration values: `isset` on a setting holding null is false. The model's maps hold
  only strings, so a present key is always set.
- A default disk without a `root`: assigning null to the typed `bucketPath` raises in
  `initialize`; the model's `DiskConfig.root` is always a string.
- `mkdir` and `file_put_contents` failing for a missing parent or missing permissions are
  folded into the `refused` paths of `Disk`; the directory tree itself is not modelled.
- The abstract `move(string $fileField = 'file')` of src/BaseUpload.php:110 does not match the
  drivers' `move(File $file)`; the model follows the drivers, which take the file itself.
- The unused `$root` argument of `getBucketPath`: the code always passes the default.
- `mkdir`'s recursive creation of parent directories: only the target directory is added.
- A PHP warning that the framework turns into an exception (for example a refused
  `file_put_contents` in `stream`). The model follows the code's own checks.
- LocalDriver.Local.Move: the exception `new File()` raises for a missing stored file cannot
  happen after a successful write, so it is not modelled.
- The result object `move` and `stream` return is the driver's own `fileInfo` StdClass
  (src/driver/Oss.php:68, :308; src/driver/Local.php:63, :118), so a later call on the same
  driver changes a result already handed out. The model returns a value copy of `fileInfo`
  and does not capture that aliasing.
- Exception message texts: errors are kinds in `Error`, with the values the messages
  interpolate (the extension, the KB limit, the path, the missing field).
- File-system and network concurrency.
