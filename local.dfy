/**
 * The local-disk driver: the storage directory under the disk root, its
 * on-demand creation, file upload, stream upload, delete and (unsigned)
 * links. The operating system's filesystem is the `Disk` class; the
 * framework's filesystem facade (`url()`, `path()`, the default disk's
 * settings) is the `Facade` value.
 */
module LocalDriver {
  import opened Common
  import opened Strings
  import opened Upload

  /** The `result` marker of `sign`: local storage does not sign links. */
  const LocalSignMarker: string := "Local本地存储不支持签名"

  /** The part of the filesystem the driver observes and changes. */
  class Disk {
    var dirs: set<string>
    var writable: set<string>
    var files: map<string, seq<byte>>
    /** Paths at which the operating system refuses to create a directory or a file. */
    const refused: set<string>

    constructor(dirs: set<string>, writable: set<string>, files: map<string, seq<byte>>, refused: set<string>)
      ensures this.dirs == dirs && this.writable == writable && this.files == files && this.refused == refused
    {
      this.dirs := dirs;
      this.writable := writable;
      this.files := files;
      this.refused := refused;
    }

    /** `file_exists`: true for files and for directories. */
    predicate FileExists(p: string)
      reads this
    {
      p in files || p in dirs
    }

    /** `mkdir($p, 0777, true)`: fails where a file or directory already stands or the system refuses. */
    method MakeDir(p: string) returns (ok: bool)
      modifies this`dirs
      ensures ok == (p !in refused && p !in files && p !in old(dirs))
      ensures dirs == if ok then old(dirs) + {p} else old(dirs)
    {
      ok := p !in refused && p !in files && p !in dirs;
      if ok {
        dirs := dirs + {p};
      }
    }

    /** `file_put_contents($p, $data)`: fails onto a directory or where the system refuses. */
    method PutContents(p: string, data: seq<byte>) returns (ok: bool)
      modifies this`files
      ensures ok == (p !in refused && p !in dirs)
      ensures files == if ok then old(files)[p := data] else old(files)
    {
      ok := p !in refused && p !in dirs;
      if ok {
        files := files[p := data];
      }
    }

    /** `unlink($p)`: removes a file; fails (and changes nothing) for anything else. */
    method Unlink(p: string) returns (ok: bool)
      modifies this`files
      ensures ok == (p in old(files))
      ensures files == old(files) - {p}
    {
      ok := p in files;
      files := files - {p};
    }
  }

  /** The framework facade: the default disk's settings, `Filesystem::url` and `Filesystem::path`. */
  datatype Facade = Facade(disk: DiskConfig, url: string -> string, path: string -> string)

  /** `root/path` with every backslash turned into a slash. */
  function NormalizePath(root: string, path: string): (r: string)
    ensures '\\' !in r
    ensures |r| == |root| + 1 + |path|
  {
    ReplaceCharRemoves(root + "/" + path, '\\', '/');
    ReplaceChar(root + "/" + path, '\\', '/')
  }

  /** Normalising keeps every character except backslashes, which become slashes. */
  lemma NormalizePathChars(root: string, path: string, i: nat)
    requires i < |root| + 1 + |path|
    ensures var s := root + "/" + path;
      NormalizePath(root, path)[i] == if s[i] == '\\' then '/' else s[i]
  {
  }

  /** The target of `stream`, `dir/key`, is never a falsy string. */
  lemma StreamTargetTruthy(dir: string, key: string)
    ensures Truthy(dir + "/" + key)
  {
    var s := dir + "/" + key;
    assert s[|dir|] == '/';
    assert |s| >= 1 && s != "0";
  }

  /**
   * `ltrim` with the disk URL as mask can remove more than the URL prefix:
   * with URL "/storage", "/storage/test.png" loses "test" too.
   */
  lemma DeleteMaskOverstrips()
    ensures LTrim("/storage/test.png", "/storage") == ".png"
  {
    var s, mask, t := "/storage/test.png", "/storage", ".png";
    var stripped := "/storage/test";
    assert s == stripped + t;
    assert forall j :: 0 <= j < |stripped| ==> stripped[j] in mask by {
      assert '/' in mask && 's' in mask && 't' in mask && 'e' in mask;
    }
    assert s[|s| - |t|..] == t;
    assert forall j :: 0 <= j < |s| - |t| ==> s[j] == stripped[j];
    assert t[0] !in mask;
    LTrimUnique(s, mask, t);
  }

  class Local {
    const base: BaseUpload
    const fs: Disk
    const facade: Facade
    /** The storage root: the default disk's `root`. */
    const bucketPath: string

    /** `new Local(config)`: the base state, then `initialize`, which reads the disk root. */
    constructor(config: map<string, string>, fs: Disk, facade: Facade)
      ensures fresh(base) && base.config == config
      ensures base.path == "files" && base.fileName == "" && base.validateRule == map[]
      ensures base.fileInfo == EmptyFileInfo
      ensures this.fs == fs && this.facade == facade && bucketPath == facade.disk.root
    {
      base := new BaseUpload(config);
      this.fs := fs;
      this.facade := facade;
      bucketPath := facade.disk.root;
    }

    /** `getBucketPath`: the root must be a writable directory; the result is the normalised `root/path`. */
    function GetBucketPath(path: string): (r: Result<string>)
      reads fs
      ensures r.Err? <==> bucketPath !in fs.dirs || bucketPath !in fs.writable
      ensures bucketPath !in fs.dirs ==> r == Err(PathNotFound(bucketPath))
      ensures bucketPath in fs.dirs && bucketPath !in fs.writable ==> r == Err(PathUnwritable(bucketPath))
      ensures r.Ok? ==> r.value == NormalizePath(bucketPath, path) && '\\' !in r.value
    {
      if bucketPath !in fs.dirs then Err(PathNotFound(bucketPath))
      else if bucketPath !in fs.writable then Err(PathUnwritable(bucketPath))
      else Ok(NormalizePath(bucketPath, path))
    }

    /** `checkBucketPath`: true when the directory exists, else the result of creating it. */
    method CheckBucketPath(dir: string) returns (ok: bool)
      modifies fs`dirs
      ensures ok == (old(dir in fs.dirs) || (dir !in fs.refused && dir !in fs.files))
      ensures fs.dirs == if ok then old(fs.dirs) + {dir} else old(fs.dirs)
    {
      if dir in fs.dirs {
        return true;
      }
      ok := fs.MakeDir(dir);
    }

    /** `Filesystem::putFileAs`: stores the content at `path(dir/name)`, answering `dir/name`. */
    method PutFileAs(dir: string, content: seq<byte>, name: string) returns (stored: Option<string>)
      modifies fs`files
      ensures var rel := dir + "/" + name;
        && (stored.Some? <==> facade.path(rel) !in fs.refused && facade.path(rel) !in fs.dirs)
        && (stored.Some? ==> stored.value == rel && fs.files == old(fs.files)[facade.path(rel) := content])
        && (stored.None? ==> fs.files == old(fs.files))
    {
      var rel := dir + "/" + name;
      var ok := fs.PutContents(facade.path(rel), content);
      if !ok {
        return None;
      }
      return Some(rel);
    }

    /**
     * `move`: the gate and the custom rule, the directory checks, the store
     * through the facade, then all four result fields (both links the same URL).
     */
    method Move(file: UploadedFile, policy: Policy, accepts: string -> bool, stamp: string, random: nat)
      returns (r: Result<FileInfo>)
      requires IsTimestamp(stamp) && IsRandomSuffix(random)
      modifies base`fileInfo, fs`dirs, fs`files
      ensures var gate := Admission(file.ext, |file.content|, policy, base.validateRule, accepts);
        gate.Fail? ==> r == Err(gate.error) && base.fileInfo == old(base.fileInfo) && unchanged(fs)
      ensures var gate := Admission(file.ext, |file.content|, policy, base.validateRule, accepts);
        var dir := old(GetBucketPath(base.path));
        gate.Pass? && dir.Err? ==> r == Err(dir.error) && base.fileInfo == old(base.fileInfo) && unchanged(fs)
      ensures var gate := Admission(file.ext, |file.content|, policy, base.validateRule, accepts);
        var dir := old(GetBucketPath(base.path));
        gate.Pass? && dir.Ok? && dir.value !in old(fs.dirs) &&
        (dir.value in fs.refused || dir.value in old(fs.files)) ==>
          r == Err(CannotWrite(dir.value)) && base.fileInfo == old(base.fileInfo) && unchanged(fs)
      ensures var gate := Admission(file.ext, |file.content|, policy, base.validateRule, accepts);
        var dir := old(GetBucketPath(base.path));
        var rel := base.path + "/" + GenerateFileName(base.fileName, file.ext, stamp, random);
        var target := facade.path(rel);
        gate.Pass? && dir.Ok? &&
        (dir.value in old(fs.dirs) || (dir.value !in fs.refused && dir.value !in old(fs.files))) ==>
          var writable := target !in fs.refused && target !in old(fs.dirs) + {dir.value};
          && fs.dirs == old(fs.dirs) + {dir.value}
          && (!writable ==>
                r == Err(WriteFailed) && base.fileInfo == old(base.fileInfo) && fs.files == old(fs.files))
          && (writable ==>
                && r == Ok(base.fileInfo)
                && fs.files == old(fs.files)[target := file.content]
                && base.fileInfo == FileInfo(Some(file.originalName), Some(Basename(target)),
                                             Some(facade.url(rel)), Some(facade.url(rel))))
    {
      var gate := ValidateFileByConfig(file.ext, |file.content|, policy);
      if gate.Fail? {
        return Err(gate.error);
      }
      if |base.validateRule| != 0 {
        var rule := ExtractValidate(base.validateRule);
        if rule.Err? {
          return Err(rule.error);
        }
        if !accepts(rule.value) {
          return Err(RuleRejected(rule.value));
        }
      }
      var dir := GetBucketPath(base.path);
      if dir.Err? {
        return Err(dir.error);
      }
      var ok := CheckBucketPath(dir.value);
      if !ok {
        return Err(CannotWrite(dir.value));
      }
      var fileName := PutFileAs(base.path, file.content, GenerateFileName(base.fileName, file.ext, stamp, random));
      if fileName.None? {
        return Err(WriteFailed);
      }
      var filePath := facade.path(fileName.value);
      base.fileInfo := base.fileInfo.(realName := Some(file.originalName));
      base.fileInfo := base.fileInfo.(fileName := Some(Basename(filePath)));
      base.fileInfo := base.fileInfo.(originLink := Some(facade.url(fileName.value)));
      base.fileInfo := base.fileInfo.(signLink := Some(facade.url(fileName.value)));
      return Ok(base.fileInfo);
    }

    /**
     * `stream`: writes the content to `dir/key` after the directory checks.
     * The later failure check tests the (never falsy) target string, not the
     * write, so a refused write still yields a result.
     */
    method Stream(content: seq<byte>, key: string) returns (r: Result<FileInfo>)
      modifies base`fileInfo, fs`dirs, fs`files
      ensures var dir := old(GetBucketPath(base.path));
        dir.Err? ==> r == Err(dir.error) && base.fileInfo == old(base.fileInfo) && unchanged(fs)
      ensures var dir := old(GetBucketPath(base.path));
        dir.Ok? && dir.value !in old(fs.dirs) && (dir.value in fs.refused || dir.value in old(fs.files)) ==>
          r == Err(CannotWrite(dir.value)) && base.fileInfo == old(base.fileInfo) && unchanged(fs)
      ensures var dir := old(GetBucketPath(base.path));
        var link := facade.url("/" + base.path + "/" + key);
        dir.Ok? && (dir.value in old(fs.dirs) || (dir.value !in fs.refused && dir.value !in old(fs.files))) ==>
          var target := dir.value + "/" + key;
          var writable := target !in fs.refused && target !in old(fs.dirs) + {dir.value};
          && fs.dirs == old(fs.dirs) + {dir.value}
          && fs.files == (if writable then old(fs.files)[target := content] else old(fs.files))
          && base.fileInfo == old(base.fileInfo).(fileName := Some(key), originLink := Some(link), signLink := Some(link))
          && r == Ok(base.fileInfo)
    {
      var dir := GetBucketPath(base.path);
      if dir.Err? {
        return Err(dir.error);
      }
      var ok := CheckBucketPath(dir.value);
      if !ok {
        return Err(CannotWrite(dir.value));
      }
      var fileName := dir.value + "/" + key;
      var written := fs.PutContents(fileName, content);
      StreamTargetTruthy(dir.value, key);
      if !Truthy(fileName) {
        return Err(WriteFailed);
      }
      base.fileInfo := base.fileInfo.(fileName := Some(key));
      base.fileInfo := base.fileInfo.(originLink := Some(facade.url("/" + base.path + "/" + key)));
      base.fileInfo := base.fileInfo.(signLink := Some(facade.url("/" + base.path + "/" + key)));
      return Ok(base.fileInfo);
    }

    /** The on-disk path `delete` acts on: the URL's characters stripped, then resolved. */
    function DeleteTarget(bucketUrl: string, filePath: string): string
    {
      facade.path(LTrim(filePath, bucketUrl))
    }

    /**
     * `delete`: strips the URL's characters, then unlinks; a missing path
     * raises, and so does a disk without a URL (`ltrim` refuses null).
     */
    method Delete(filePath: string) returns (r: Outcome)
      modifies fs`files
      ensures facade.disk.url.None? ==> r == Fail(UrlUnset) && fs.files == old(fs.files)
      ensures facade.disk.url.Some? ==>
        var target := DeleteTarget(facade.disk.url.value, filePath);
        && (r.Pass? <==> old(fs.FileExists(target)))
        && (r.Fail? ==> r.error == NotFound)
        && fs.files == old(fs.files) - {target}
    {
      if facade.disk.url.None? {
        return Fail(UrlUnset);
      }
      var bucketUrl := facade.disk.url.value;
      var stripped := LTrim(filePath, bucketUrl);
      var target := facade.path(stripped);
      if !fs.FileExists(target) {
        return Fail(NotFound);
      }
      var removed := fs.Unlink(target);
      return Pass;
    }

    /** `sign`: the plain public URL of the key with the unsupported-signing marker. */
    function Sign(key: string, expires: int): SignResult
    {
      SignResult(facade.url(key), key, Unsupported(LocalSignMarker))
    }

    /** The expiry is ignored: the link is the public URL, the same for every expiry. */
    lemma SignIgnoresExpiry(key: string, e1: int, e2: int)
      ensures Sign(key, e1) == Sign(key, e2)
      ensures Sign(key, e1).url == facade.url(key) && Sign(key, e1).key == key
      ensures Sign(key, e1).result == Unsupported(LocalSignMarker)
    {
    }
  }
}
