/**
 * Multipart transfer of the OSS driver: the size threshold, the part count,
 * the byte window each part reads, and the sequential loop that uploads the
 * parts and collects their etags in part-number order.
 */
module OssParts {
  import opened Common
  import opened OssSdk

  /** 3 MiB per part. */
  const PartSize: nat := 3 * 1024 * 1024

  /** 10 MiB: larger payloads go multipart. */
  const MultipartThreshold: nat := 10485760

  predicate UsesMultipart(size: nat)
  {
    size > MultipartThreshold
  }

  /** The threshold is strict: exactly 10 MiB is sent in one request. */
  lemma ThresholdBoundary()
    ensures !UsesMultipart(10485760) && UsesMultipart(10485761)
  {
  }

  /** `intdiv(size, partSize) + 1`. */
  function PartsNum(size: nat): nat
  {
    size / PartSize + 1
  }

  /** The parts reach past the end, and all but the last start inside the file. */
  lemma PartsCover(size: nat)
    ensures PartsNum(size) >= 1
    ensures (PartsNum(size) - 1) * PartSize <= size < PartsNum(size) * PartSize
  {
    var q := size / PartSize;
    assert size == q * PartSize + size % PartSize;
  }

  /** An exact multiple of the part size yields one more part than the data needs. */
  lemma ExactMultipleExtraPart(k: nat)
    ensures PartsNum(k * PartSize) == k + 1
  {
    var size := k * PartSize;
    assert size == k * PartSize + 0;
  }

  function Min(a: nat, b: nat): nat
  {
    if a <= b then a else b
  }

  /** The bytes a `LimitStream(file, limit, offset)` yields. */
  function Window(content: seq<byte>, offset: nat, limit: nat): (w: seq<byte>)
    ensures |w| <= limit
    ensures offset <= |content| ==> w == content[offset..Min(offset + limit, |content|)]
    ensures offset >= |content| ==> w == []
  {
    if offset >= |content| then [] else content[offset..Min(offset + limit, |content|)]
  }

  /** Where part `n` (numbered from 1) starts. */
  function PartOffset(n: nat): nat
    requires n >= 1
  {
    (n - 1) * PartSize
  }

  /** The body of part `n`. */
  function PartBody(content: seq<byte>, n: nat): seq<byte>
    requires n >= 1
  {
    Window(content, PartOffset(n), PartSize)
  }

  /**
   * Part layout: every part starts inside the file (or at its end), parts
   * before the last are full, and the last holds the remainder.
   */
  lemma PartLayout(content: seq<byte>, n: nat)
    requires 1 <= n <= PartsNum(|content|)
    ensures PartOffset(n) <= |content|
    ensures PartBody(content, n) == content[PartOffset(n)..PartOffset(n) + |PartBody(content, n)|]
    ensures n < PartsNum(|content|) ==> |PartBody(content, n)| == PartSize
    ensures n == PartsNum(|content|) ==> |PartBody(content, n)| == |content| % PartSize
  {
    PartsCover(|content|);
    var q := |content| / PartSize;
    assert |content| == q * PartSize + |content| % PartSize;
    assert PartOffset(n) == (n - 1) * PartSize <= q * PartSize;
  }

  /** Part n + 1 starts where part n ends. */
  lemma PartsContiguous(content: seq<byte>, n: nat)
    requires 1 <= n < PartsNum(|content|)
    ensures PartOffset(n + 1) == PartOffset(n) + |PartBody(content, n)|
  {
    PartLayout(content, n);
  }

  /** When the size is a multiple of the part size, the last part is empty. */
  lemma ExactMultipleLastPartEmpty(content: seq<byte>)
    requires |content| % PartSize == 0
    ensures PartBody(content, PartsNum(|content|)) == []
  {
    PartLayout(content, PartsNum(|content|));
  }

  /** The bodies of parts 1..k, concatenated in part-number order. */
  function Assembled(content: seq<byte>, k: nat): seq<byte>
  {
    if k == 0 then [] else Assembled(content, k - 1) + PartBody(content, k)
  }

  lemma {:induction false} AssembledPrefix(content: seq<byte>, k: nat)
    ensures Assembled(content, k) == content[..Min(k * PartSize, |content|)]
  {
    if k > 0 {
      AssembledPrefix(content, k - 1);
      var lo := Min((k - 1) * PartSize, |content|);
      var hi := Min(k * PartSize, |content|);
      assert content[..hi] == content[..lo] + content[lo..hi];
    }
  }

  /** Concatenating all part bodies in ascending part number gives the file back. */
  lemma Reassemble(content: seq<byte>)
    ensures Assembled(content, PartsNum(|content|)) == content
  {
    PartsCover(|content|);
    AssembledPrefix(content, PartsNum(|content|));
  }

  /** The `uploadPart` request for part `n`. */
  function PartRequest(bucket: string, key: string, uploadId: string, content: seq<byte>, n: nat): UploadPartRequest
    requires n >= 1
  {
    UploadPartRequest(bucket, key, n, uploadId, PartBody(content, n))
  }

  /** Every part request of the file is answered with an etag. */
  predicate AllPartsAccepted(srv: Server, bucket: string, key: string, uploadId: string, content: seq<byte>)
  {
    forall n :: 1 <= n <= PartsNum(|content|) ==> srv.uploadPart(PartRequest(bucket, key, uploadId, content, n)).Some?
  }

  /** The part list submitted on completion: part i + 1 with the etag its upload returned. */
  function CompletedParts(srv: Server, bucket: string, key: string, uploadId: string, content: seq<byte>): (parts: seq<UploadPart>)
    requires AllPartsAccepted(srv, bucket, key, uploadId, content)
    ensures |parts| == PartsNum(|content|)
    ensures forall i :: 0 <= i < |parts| ==> parts[i].partNumber == i + 1
  {
    seq(PartsNum(|content|), i requires 0 <= i < PartsNum(|content|) =>
      UploadPart(i + 1, srv.uploadPart(PartRequest(bucket, key, uploadId, content, i + 1)).value))
  }

  /**
   * `partUpload`'s loop: part i (1..partsNum) is uploaded with the window at
   * `(i - 1) * partSize` and its etag appended; an SDK failure ends the loop.
   */
  method UploadParts(srv: Server, bucket: string, key: string, uploadId: string, content: seq<byte>)
    returns (r: Option<seq<UploadPart>>)
    ensures r.Some? <==> AllPartsAccepted(srv, bucket, key, uploadId, content)
    ensures r.Some? ==> |r.value| == PartsNum(|content|)
    ensures r.Some? ==> forall i :: 0 <= i < |r.value| ==>
      r.value[i] == UploadPart(i + 1, srv.uploadPart(PartRequest(bucket, key, uploadId, content, i + 1)).value)
    ensures r.Some? ==> r.value == CompletedParts(srv, bucket, key, uploadId, content)
  {
    var partsNum := |content| / PartSize + 1;
    var parts: seq<UploadPart> := [];
    var i := 1;
    while i <= partsNum
      invariant 1 <= i <= partsNum + 1
      invariant |parts| == i - 1
      invariant forall n :: 1 <= n < i ==> srv.uploadPart(PartRequest(bucket, key, uploadId, content, n)).Some?
      invariant forall j :: 0 <= j < |parts| ==>
        parts[j] == UploadPart(j + 1, srv.uploadPart(PartRequest(bucket, key, uploadId, content, j + 1)).value)
    {
      var body := Window(content, (i - 1) * PartSize, PartSize);
      var etag := srv.uploadPart(UploadPartRequest(bucket, key, i, uploadId, body));
      if etag.None? {
        assert srv.uploadPart(PartRequest(bucket, key, uploadId, content, i)).None?;
        return None;
      }
      parts := parts + [UploadPart(i, etag.value)];
      i := i + 1;
    }
    return Some(parts);
  }
}
