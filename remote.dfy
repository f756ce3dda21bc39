/** The remote side of a layer push: the registry's chunked-upload API as the
    layer writer sees it, and a scripted client that records every call it
    receives (the fake client of the repository's tests, with its counters
    replaced by a log). */
module EcrClient {

  /** One byte of a layer blob. */
  newtype byte = x: int | 0 <= x < 0x100

  /** A content digest such as "sha256:<hex>"; only ever compared for equality. */
  type Digest = string

  /** The part size the registry negotiates; it is always positive. */
  type PartSize = x: int | x >= 1 witness 1

  /** The registry account and the repository one upload is scoped to. */
  datatype Identity = Identity(registryId: string, repository: string)

  /** A request received by the remote client, as it appears in the call log. */
  datatype Call =
    | Initiate(registryId: string, repository: string)
    | UploadPart(registryId: string, repository: string, uploadId: string,
                 first: int, last: int, blob: seq<byte>)
    | Complete(registryId: string, repository: string, uploadId: string, digest: Digest)

  /** Reply to an initiate call: the upload id and the negotiated part size, or an error. */
  datatype InitiateReply = Initiated(uploadId: string, partSize: PartSize) | InitiateFailed(reason: string)

  /** Reply to an upload-part call: an acknowledgement or an error. */
  datatype PartReply = PartUploaded | PartFailed(reason: string)

  /** Reply to a complete call: the digest the registry computed, the
      distinguished "layer already exists" error, or any other error. */
  datatype CompleteReply = Completed(layerDigest: Digest) | LayerAlreadyExists | CompleteFailed(reason: string)

  /** A remote client whose every operation is backed by a scripted function
      of the request, and which appends each request to its log before
      answering it. */
  class Client {
    const initiateFn: Call -> InitiateReply
    const uploadPartFn: Call -> PartReply
    const completeFn: Call -> CompleteReply
    var log: seq<Call>

    constructor (initiateFn: Call -> InitiateReply, uploadPartFn: Call -> PartReply,
                 completeFn: Call -> CompleteReply)
      ensures this.initiateFn == initiateFn && this.uploadPartFn == uploadPartFn
      ensures this.completeFn == completeFn
      ensures log == []
    {
      this.initiateFn := initiateFn;
      this.uploadPartFn := uploadPartFn;
      this.completeFn := completeFn;
      log := [];
    }

    method InitiateLayerUpload(registryId: string, repository: string) returns (r: InitiateReply)
      modifies this
      ensures log == old(log) + [Initiate(registryId, repository)]
      ensures r == initiateFn(Initiate(registryId, repository))
    {
      var call := Initiate(registryId, repository);
      log := log + [call];
      r := initiateFn(call);
    }

    method UploadLayerPart(registryId: string, repository: string, uploadId: string,
                           first: int, last: int, blob: seq<byte>) returns (r: PartReply)
      modifies this
      ensures log == old(log) + [UploadPart(registryId, repository, uploadId, first, last, blob)]
      ensures r == uploadPartFn(UploadPart(registryId, repository, uploadId, first, last, blob))
    {
      var call := UploadPart(registryId, repository, uploadId, first, last, blob);
      log := log + [call];
      r := uploadPartFn(call);
    }

    method CompleteLayerUpload(registryId: string, repository: string, uploadId: string,
                               digest: Digest) returns (r: CompleteReply)
      modifies this
      ensures log == old(log) + [Complete(registryId, repository, uploadId, digest)]
      ensures r == completeFn(Complete(registryId, repository, uploadId, digest))
    {
      var call := Complete(registryId, repository, uploadId, digest);
      log := log + [call];
      r := completeFn(call);
    }
  }
}
