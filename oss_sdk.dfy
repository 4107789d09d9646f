/**
 * The boundary to the Alibaba OSS SDK. Each SDK call the driver makes is a
 * request record; what the remote service answers is given by a `Server`
 * value of total functions (the SDK's behaviour and its cryptography are not
 * part of this model). `None` stands for a call that raised.
 */
module OssSdk {
  import opened Common

  datatype InitiateRequest = InitiateRequest(bucket: string, key: string)

  datatype UploadPartRequest = UploadPartRequest(
    bucket: string, key: string, partNumber: nat, uploadId: string, body: seq<byte>)

  /** One finished part, as submitted to `completeMultipartUpload`. */
  datatype UploadPart = UploadPart(partNumber: nat, etag: string)

  datatype CompleteRequest = CompleteRequest(bucket: string, key: string, uploadId: string, parts: seq<UploadPart>)

  datatype PutRequest = PutRequest(bucket: string, key: string, body: seq<byte>)

  datatype DeleteRequest = DeleteRequest(bucket: string, key: string)

  datatype PresignRequest = PresignRequest(bucket: string, key: string, expires: int)

  /** The answers of the object store to each kind of request. */
  datatype Server = Server(
    initiate: InitiateRequest -> Option<string>,     // upload id
    uploadPart: UploadPartRequest -> Option<string>, // etag
    complete: CompleteRequest -> int,                // HTTP status
    put: PutRequest -> int,                          // HTTP status
    delete: DeleteRequest -> int,                    // HTTP status
    presign: PresignRequest -> Option<string>)       // signed URL

  /** The SDK client: credentials, endpoint and region taken from the driver config. */
  class OssClient {
    const accessKeyId: string
    const accessKeySecret: string
    const endpoint: string
    const region: string

    constructor(accessKeyId: string, accessKeySecret: string, endpoint: string, region: string)
      ensures this.accessKeyId == accessKeyId && this.accessKeySecret == accessKeySecret
      ensures this.endpoint == endpoint && this.region == region
    {
      this.accessKeyId := accessKeyId;
      this.accessKeySecret := accessKeySecret;
      this.endpoint := endpoint;
      this.region := region;
    }
  }
}
