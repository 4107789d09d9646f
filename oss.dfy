/**
 * The OSS driver: configuration check, object keys and URLs, the lazily
 * created SDK client, the choice between a single `putObject` and a
 * multipart upload, stream upload, delete and presigned links.
 */
module OssDriver {
  import opened Common
  import opened Strings
  import opened Upload
  import opened OssSdk
  import opened OssParts

  /** The settings `initialize` requires, in the order it checks them. */
  const ConfigFields: seq<string> := ["aki", "aks", "endpoint", "region"]

  /** Expiry, in seconds, of the signed link `move` and `stream` return. */
  const DefaultExpires: int := 7200

  predicate HasFields(data: map<string, string>, required: seq<string>)
  {
    forall k :: 0 <= k < |required| ==> required[k] in data
  }

  lemma ConfigFieldsNamed(data: map<string, string>)
    ensures HasFields(data, ConfigFields) <==>
      "aki" in data && "aks" in data && "endpoint" in data && "region" in data
  {
    assert ConfigFields[0] == "aki" && ConfigFields[1] == "aks";
    assert ConfigFields[2] == "endpoint" && ConfigFields[3] == "region";
  }

  /** `required[k]` is the first required field that `data` lacks. */
  predicate MissingFirstAt(data: map<string, string>, required: seq<string>, k: nat)
  {
    k < |required| && required[k] !in data && forall j :: 0 <= j < k ==> required[j] in data
  }

  /** `validateConfig`: raises for the first required field that is not set. */
  method ValidateConfig(data: map<string, string>, required: seq<string>) returns (r: Outcome)
    ensures r.Pass? <==> HasFields(data, required)
    ensures r.Fail? ==> exists k: nat :: MissingFirstAt(data, required, k) && r.error == MissingConfig(required[k])
  {
    for i := 0 to |required|
      invariant forall j :: 0 <= j < i ==> required[j] in data
    {
      if required[i] !in data {
        assert MissingFirstAt(data, required, i);
        return Fail(MissingConfig(required[i]));
      }
    }
    return Pass;
  }

  /** `setFileKey`: the object key is `path/name`, or the bare name when the path is falsy. */
  function SetFileKey(path: string, name: string): string
  {
    if Truthy(path) then path + "/" + name else name
  }

  /** The key ends with the name, and its last component is the name. */
  lemma SetFileKeyEndsWithName(path: string, name: string)
    requires name != "" && '/' !in name
    ensures |SetFileKey(path, name)| >= |name|
    ensures SetFileKey(path, name)[|SetFileKey(path, name)| - |name|..] == name
    ensures Basename(SetFileKey(path, name)) == name
    ensures Truthy(path) ==> SetFileKey(path, name)[..|path| + 1] == path + "/"
  {
    var key := SetFileKey(path, name);
    if Truthy(path) {
      BasenameOfJoined(path, name);
      assert key == (path + "/") + name;
    } else {
      AfterLastNone(name, '/');
      assert name[|name| - 1] in name;
    }
  }

  /** `getBucketUrl`: the configured URL when set and truthy, else `https://<bucket>.<endpoint>`. */
  function BucketUrl(configuredUrl: Option<string>, bucket: string, endpoint: string): string
  {
    if configuredUrl.Some? && Truthy(configuredUrl.value) then configuredUrl.value
    else "https://" + bucket + "." + endpoint
  }

  /**
   * A configured URL is used as is only when truthy: an unset URL, "" and
   * "0" all fall back to the virtual-hosted bucket address.
   */
  lemma BucketUrlFallback(configuredUrl: Option<string>, bucket: string, endpoint: string)
    ensures configuredUrl.Some? && configuredUrl.value != "" && configuredUrl.value != "0" ==>
      BucketUrl(configuredUrl, bucket, endpoint) == configuredUrl.value
    ensures configuredUrl == None || configuredUrl == Some("") || configuredUrl == Some("0") ==>
      var u := BucketUrl(configuredUrl, bucket, endpoint);
      && u[..8] == "https://" && u[8..8 + |bucket|] == bucket && u[8 + |bucket|] == '.'
      && u[9 + |bucket|..] == endpoint
  {
  }

  /** `processFileUrl`: the object URL is the bucket URL, '/', and the key. */
  function ObjectUrl(bucketUrl: string, key: string): string
  {
    bucketUrl + "/" + key
  }

  /** The key can be read back from the object URL after the bucket URL and the slash. */
  lemma ObjectUrlKey(bucketUrl: string, key: string)
    ensures ObjectUrl(bucketUrl, key)[..|bucketUrl|] == bucketUrl
    ensures ObjectUrl(bucketUrl, key)[|bucketUrl|] == '/'
    ensures ObjectUrl(bucketUrl, key)[|bucketUrl| + 1..] == key
  {
  }

  /** What `partUpload`/`directUpload` return on success. */
  datatype Stored = Stored(url: string, key: string)

  /** Initiate answered, every part accepted, and completion answered 200. */
  predicate MultipartSucceeds(srv: Server, bucket: string, key: string, content: seq<byte>)
  {
    var id := srv.initiate(InitiateRequest(bucket, key));
    && id.Some?
    && AllPartsAccepted(srv, bucket, key, id.value, content)
    && srv.complete(CompleteRequest(bucket, key, id.value, CompletedParts(srv, bucket, key, id.value, content))) == 200
  }

  /** The transfer `move` performs for a payload of this size succeeds. */
  predicate TransferSucceeds(srv: Server, bucket: string, key: string, content: seq<byte>)
  {
    if UsesMultipart(|content|) then MultipartSucceeds(srv, bucket, key, content)
    else srv.put(PutRequest(bucket, key, content)) == 200
  }

  /** Up to 10 MiB only the single `putObject` matters; above, only the multipart calls do. */
  lemma TransferDispatch(srv: Server, bucket: string, key: string, content: seq<byte>)
    ensures |content| <= 10485760 ==>
      (TransferSucceeds(srv, bucket, key, content) <==> srv.put(PutRequest(bucket, key, content)) == 200)
    ensures |content| > 10485760 ==>
      (TransferSucceeds(srv, bucket, key, content) <==> MultipartSucceeds(srv, bucket, key, content))
  {
  }

  class Oss {
    const base: BaseUpload
    const disk: DiskConfig
    /** The bucket: the default disk's `root`. */
    const bucketPath: string
    var client: OssClient?

    /**
     * The required settings are present (checked once by `Initialize`), and a
     * cached client is one built from them.
     */
    ghost predicate Valid()
      reads this
      ensures Valid() ==>
        "aki" in base.config && "aks" in base.config && "endpoint" in base.config && "region" in base.config
    {
      ConfigFieldsNamed(base.config);
      && HasFields(base.config, ConfigFields)
      && (client != null ==>
            && client.accessKeyId == base.config["aki"] && client.accessKeySecret == base.config["aks"]
            && client.endpoint == base.config["endpoint"] && client.region == base.config["region"])
    }

    constructor(base: BaseUpload, disk: DiskConfig)
      requires HasFields(base.config, ConfigFields)
      ensures Valid()
      ensures this.base == base && this.disk == disk && bucketPath == disk.root && client == null
    {
      this.base := base;
      this.disk := disk;
      bucketPath := disk.root;
      client := null;
    }

    /** `new Oss(config)`: the base state, then `initialize`, which validates the config. */
    static method Initialize(config: map<string, string>, disk: DiskConfig) returns (r: Result<Oss>)
      ensures r.Ok? <==> HasFields(config, ConfigFields)
      ensures r.Err? ==> exists k: nat :: MissingFirstAt(config, ConfigFields, k) && r.error == MissingConfig(ConfigFields[k])
      ensures r.Ok? ==> var d := r.value;
        && fresh(d) && fresh(d.base) && d.Valid()
        && d.base.config == config && d.base.path == "files" && d.base.fileName == ""
        && d.base.validateRule == map[] && d.base.fileInfo == EmptyFileInfo
        && d.bucketPath == disk.root && d.disk == disk && d.client == null
    {
      var base := new BaseUpload(config);
      var checked := ValidateConfig(config, ConfigFields);
      if checked.Fail? {
        return Err(checked.error);
      }
      var d := new Oss(base, disk);
      return Ok(d);
    }

    /** `createClient`: builds the client on first use and returns the cached one afterwards. */
    method CreateClient() returns (c: OssClient)
      requires Valid()
      modifies this`client
      ensures Valid()
      ensures client == c
      ensures old(client) != null ==> c == old(client)
      ensures old(client) == null ==> fresh(c)
      ensures old(client) == null ==>
        && c.accessKeyId == base.config["aki"] && c.accessKeySecret == base.config["aks"]
        && c.endpoint == base.config["endpoint"] && c.region == base.config["region"]
    {
      if client == null {
        client := new OssClient(base.config["aki"], base.config["aks"], base.config["endpoint"], base.config["region"]);
      }
      return client;
    }

    function Endpoint(): string
      requires Valid()
      reads this
    {
      base.config["endpoint"]
    }

    /** `getBucketUrl`. */
    function GetBucketUrl(): string
      requires Valid()
      reads this
    {
      BucketUrl(disk.url, bucketPath, Endpoint())
    }

    /** `processFileUrl`. */
    function ProcessFileUrl(key: string): string
      requires Valid()
      reads this
    {
      ObjectUrl(GetBucketUrl(), key)
    }

    /** `partUpload`: initiate, upload every part in order, complete; any failure raises. */
    method PartUpload(content: seq<byte>, name: string, srv: Server) returns (r: Result<Stored>)
      requires Valid()
      modifies this`client
      ensures Valid()
      ensures client != null && (old(client) != null ==> client == old(client))
      ensures var key := SetFileKey(base.path, name);
        && (r.Ok? <==> MultipartSucceeds(srv, bucketPath, key, content))
        && (r.Ok? ==> r.value == Stored(ProcessFileUrl(key), key))
        && (r.Err? ==> r.error == UploadFailed)
    {
      var key := SetFileKey(base.path, name);
      var bucket := bucketPath;
      var c := CreateClient();
      var initResult := srv.initiate(InitiateRequest(bucket, key));
      if initResult.None? {
        return Err(UploadFailed);
      }
      var uploadId := initResult.value;
      var parts := UploadParts(srv, bucket, key, uploadId, content);
      if parts.None? {
        return Err(UploadFailed);
      }
      var status := srv.complete(CompleteRequest(bucket, key, uploadId, parts.value));
      if status != 200 {
        return Err(UploadFailed);
      }
      return Ok(Stored(ProcessFileUrl(key), key));
    }

    /** `directUpload`: one `putObject`; anything but 200 raises. */
    method DirectUpload(content: seq<byte>, name: string, srv: Server) returns (r: Result<Stored>)
      requires Valid()
      modifies this`client
      ensures Valid()
      ensures client != null && (old(client) != null ==> client == old(client))
      ensures var key := SetFileKey(base.path, name);
        && (r.Ok? <==> srv.put(PutRequest(bucketPath, key, content)) == 200)
        && (r.Ok? ==> r.value == Stored(ProcessFileUrl(key), key))
        && (r.Err? ==> r.error == UploadFailed)
    {
      var key := SetFileKey(base.path, name);
      var c := CreateClient();
      var status := srv.put(PutRequest(bucketPath, key, content));
      if status != 200 {
        return Err(UploadFailed);
      }
      return Ok(Stored(ProcessFileUrl(key), key));
    }

    /** `sign`: a presigned GET link for the key, valid for `expires` seconds. */
    method Sign(key: string, expires: int, srv: Server) returns (r: Result<SignResult>)
      requires Valid()
      modifies this`client
      ensures Valid()
      ensures client != null && (old(client) != null ==> client == old(client))
      ensures var link := srv.presign(PresignRequest(bucketPath, key, expires));
        && (r.Ok? <==> link.Some?)
        && (r.Ok? ==> r.value == SignResult(link.value, key, Presigned))
        && (r.Err? ==> r.error == SignFailed)
    {
      var c := CreateClient();
      var link := srv.presign(PresignRequest(bucketPath, key, expires));
      if link.None? {
        return Err(SignFailed);
      }
      return Ok(SignResult(link.value, key, Presigned));
    }

    /** `signUrl`: the URL of `sign` with the default expiry of 7200 seconds. */
    method SignUrl(key: string, srv: Server) returns (r: Result<string>)
      requires Valid()
      modifies this`client
      ensures Valid()
      ensures client != null && (old(client) != null ==> client == old(client))
      ensures var link := srv.presign(PresignRequest(bucketPath, key, DefaultExpires));
        && (r.Ok? <==> link.Some?)
        && (r.Ok? ==> r.value == link.value)
        && (r.Err? ==> r.error == SignFailed)
    {
      var signed := Sign(key, DefaultExpires, srv);
      if signed.Err? {
        return Err(signed.error);
      }
      return Ok(signed.value.url);
    }

    /**
     * `move`: the global gate and the custom rule, a generated (or custom)
     * name, multipart above 10 MiB and a single put otherwise, then the
     * result fields one by one, the signed link last.
     */
    method Move(file: UploadedFile, policy: Policy, accepts: string -> bool, stamp: string, random: nat, srv: Server)
      returns (r: Result<FileInfo>)
      requires Valid() && IsTimestamp(stamp) && IsRandomSuffix(random)
      modifies this`client, base`fileInfo
      ensures Valid()
      ensures var gate := Admission(file.ext, |file.content|, policy, base.validateRule, accepts);
        gate.Fail? ==> r == Err(gate.error) && base.fileInfo == old(base.fileInfo) && client == old(client)
      ensures var gate := Admission(file.ext, |file.content|, policy, base.validateRule, accepts);
        var key := SetFileKey(base.path, GenerateFileName(base.fileName, file.ext, stamp, random));
        gate.Pass? && !TransferSucceeds(srv, bucketPath, key, file.content) ==>
          r == Err(UploadFailed) && base.fileInfo == old(base.fileInfo)
      ensures var gate := Admission(file.ext, |file.content|, policy, base.validateRule, accepts);
        var key := SetFileKey(base.path, GenerateFileName(base.fileName, file.ext, stamp, random));
        var link := srv.presign(PresignRequest(bucketPath, key, DefaultExpires));
        var written := old(base.fileInfo).(realName := Some(file.originalName), fileName := Some(key),
                                           originLink := Some(ProcessFileUrl(key)));
        gate.Pass? && TransferSucceeds(srv, bucketPath, key, file.content) ==>
          if link.Some? then r == Ok(base.fileInfo) && base.fileInfo == written.(signLink := Some(link.value))
          else r == Err(SignFailed) && base.fileInfo == written
      ensures Admission(file.ext, |file.content|, policy, base.validateRule, accepts).Pass? ==>
        client != null && (old(client) != null ==> client == old(client))
    {
      var gate := ValidateFileByConfig(file.ext, |file.content|, policy);
      if gate.Fail? {
        return Err(gate.error);
      }
      if |base.validateRule| != 0 {
        var rule := ExtractValidate(base.validateRule);
        if rule.Err? {
          return Err(rule.error);
        }
        if !accepts(rule.value) {
          return Err(RuleRejected(rule.value));
        }
      }
      var name := GenerateFileName(base.fileName, file.ext, stamp, random);
      var flag: Result<Stored>;
      if |file.content| > 10485760 {
        flag := PartUpload(file.content, name, srv);
      } else {
        flag := DirectUpload(file.content, name, srv);
      }
      if flag.Err? {
        return Err(flag.error);
      }
      base.fileInfo := base.fileInfo.(realName := Some(file.originalName));
      base.fileInfo := base.fileInfo.(fileName := Some(flag.value.key));
      base.fileInfo := base.fileInfo.(originLink := Some(flag.value.url));
      var signLink := SignUrl(flag.value.key, srv);
      if signLink.Err? {
        return Err(signLink.error);
      }
      base.fileInfo := base.fileInfo.(signLink := Some(signLink.value));
      return Ok(base.fileInfo);
    }

    /** `stream`: puts in-memory content under `setFileKey(key)`; no size or type check. */
    method Stream(content: seq<byte>, key: string, srv: Server) returns (r: Result<FileInfo>)
      requires Valid()
      modifies this`client, base`fileInfo
      ensures Valid()
      ensures client != null && (old(client) != null ==> client == old(client))
      ensures var k := SetFileKey(base.path, key);
        srv.put(PutRequest(bucketPath, k, content)) != 200 ==>
          r == Err(UploadFailed) && base.fileInfo == old(base.fileInfo)
      ensures var k := SetFileKey(base.path, key);
        var link := srv.presign(PresignRequest(bucketPath, k, DefaultExpires));
        var written := old(base.fileInfo).(fileName := Some(k), originLink := Some(ProcessFileUrl(k)));
        srv.put(PutRequest(bucketPath, k, content)) == 200 ==>
          if link.Some? then r == Ok(base.fileInfo) && base.fileInfo == written.(signLink := Some(link.value))
          else r == Err(SignFailed) && base.fileInfo == written
    {
      var k := SetFileKey(base.path, key);
      var c := CreateClient();
      var status := srv.put(PutRequest(bucketPath, k, content));
      if status != 200 {
        return Err(UploadFailed);
      }
      var flag := Stored(ProcessFileUrl(k), k);
      base.fileInfo := base.fileInfo.(fileName := Some(flag.key));
      base.fileInfo := base.fileInfo.(originLink := Some(flag.url));
      var signLink := SignUrl(flag.key, srv);
      if signLink.Err? {
        return Err(signLink.error);
      }
      base.fileInfo := base.fileInfo.(signLink := Some(signLink.value));
      return Ok(base.fileInfo);
    }

    /** `delete`: one `deleteObject` on the key as given; only 204 counts as success. */
    method Delete(key: string, srv: Server) returns (r: Outcome)
      requires Valid()
      modifies this`client
      ensures Valid()
      ensures client != null && (old(client) != null ==> client == old(client))
      ensures r.Pass? <==> srv.delete(DeleteRequest(bucketPath, key)) == 204
      ensures r.Fail? ==> r.error == DeleteFailed
    {
      var c := CreateClient();
      var status := srv.delete(DeleteRequest(bucketPath, key));
      if status != 204 {
        return Fail(DeleteFailed);
      }
      return Pass;
    }
  }
}
