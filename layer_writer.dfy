/** The layer writer: one chunked upload of one layer to one repository.
    Constructing it initiates the upload; Write buffers bytes and sends
    every full chunk as an upload-part call at the next contiguous offset;
    Commit sends what is left as a final short part and completes the
    upload, treating "layer already exists" as success. */
module EcrLayerWriter {
  import opened EcrClient
  import opened Chunking

  /** Why an operation of the writer failed. */
  datatype Error =
    | Transport(reason: string)
    | Cancelled
    | DigestMismatch(expected: Digest, actual: Digest)
    | Unusable

  datatype Result<T> = Success(value: T) | Failure(error: Error)

  datatype Outcome = Pass | Fail(error: Error)

  /** A writer accepts writes until it fails or is committed; after that it
      only reports Unusable. */
  datatype Phase = Open | Failed(error: Error) | Committed

  /** How Commit reads the registry's reply to the complete call. `unsent`
      says that buffered bytes could not be sent because the writer's own
      context was cancelled. "Already exists" is success whatever else
      happened; a computed digest is success only if it is the expected one
      and nothing was held back. */
  function CommitOutcome(reply: CompleteReply, expected: Digest, unsent: bool): (r: Outcome)
    ensures r == Pass <==> reply == LayerAlreadyExists || (reply == Completed(expected) && !unsent)
    ensures reply.Completed? && !unsent && reply.layerDigest != expected ==> r == Fail(DigestMismatch(expected, reply.layerDigest))
    ensures r.Fail? ==> r.error != Unusable
  {
    match reply
    case LayerAlreadyExists => Pass
    case CompleteFailed(reason) => Fail(Transport(reason))
    case Completed(actual) =>
      if unsent then Fail(Cancelled)
      else if actual == expected then Pass
      else Fail(DigestMismatch(expected, actual))
  }

  class LayerWriter {
    const client: Client
    const identity: Identity
    const uploadId: string
    const partSize: nat
    /** Whether the writer's own context has been cancelled. */
    const cancelled: bool
    /** Bytes acknowledged by upload-part calls so far. */
    var written: nat
    /** Bytes accepted by Write but not yet sent. */
    var pending: seq<byte>
    var phase: Phase
    /** Every byte Write has accepted, in order. */
    ghost var accepted: seq<byte>
    /** The client's log when this writer was created. */
    ghost var opening: seq<Call>

    /** The registry, repository and upload id every part call carries. */
    function Scope(): Session
    {
      Session(identity.registryId, identity.repository, uploadId)
    }

    /** While the writer is open, everything accepted has been sent as full
        chunks at offsets 0, p, 2p, ... except the remainder, which is
        pending, and the client has seen nothing else since the writer was
        created. */
    ghost predicate Valid()
      reads this, client
    {
      && written + |pending| == |accepted|
      && pending == accepted[written..]
      && (partSize == 0 ==> accepted == [])
      && (phase.Open? ==>
            && pending == Remainder(accepted, partSize)
            && client.log == opening + FullParts(Scope(), 0, accepted, partSize))
    }

    /** The part calls `due` all go through: none is held back by
        cancellation and the registry acknowledges every one. */
    ghost predicate GoThrough(due: seq<Call>)
    {
      due == [] || (!cancelled && forall k | 0 <= k < |due| :: client.uploadPartFn(due[k]).PartUploaded?)
    }

    /** A writer assembled from its parts, with nothing written yet. */
    constructor (client: Client, identity: Identity, uploadId: string, partSize: nat, cancelled: bool)
      ensures Valid()
      ensures this.client == client && this.identity == identity && this.uploadId == uploadId
      ensures this.partSize == partSize && this.cancelled == cancelled
      ensures written == 0 && pending == [] && phase == Open
      ensures accepted == [] && opening == client.log
    {
      this.client := client;
      this.identity := identity;
      this.uploadId := uploadId;
      this.partSize := partSize;
      this.cancelled := cancelled;
      written := 0;
      pending := [];
      phase := Open;
      accepted := [];
      opening := client.log;
    }

    /** Write accepts all of `data` and sends every full chunk that is now
        buffered, in order, at the next contiguous offsets. It stops at the
        first part that is cancelled or refused, and the writer fails. */
    method Write(data: seq<byte>) returns (r: Result<nat>)
      requires Valid() && partSize > 0
      modifies this, client
      ensures Valid() && opening == old(opening)
      ensures !old(phase).Open? ==>
        && r == Failure(Unusable) && phase == old(phase) && accepted == old(accepted)
        && written == old(written) && pending == old(pending) && client.log == old(client.log)
      ensures old(phase).Open? ==>
        var due := FullParts(Scope(), old(written), old(pending) + data, partSize);
        && accepted == old(accepted) + data
        && (r.Success? <==> GoThrough(due))
        && (r.Success? ==> r.value == |data| && phase.Open? && client.log == old(client.log) + due)
        && (r.Failure? ==> phase == Failed(r.error))
      ensures old(phase).Open? && r.Failure? ==>
        var due := FullParts(Scope(), old(written), old(pending) + data, partSize);
        exists j | 0 <= j < |due| ::
          && GoThrough(due[..j])
          && written == old(written) + j * partSize
          && client.log == old(client.log) + due[..if cancelled then j else j + 1]
          && (if cancelled then r.error == Cancelled
              else client.uploadPartFn(due[j]).PartFailed? && r.error == Transport(client.uploadPartFn(due[j]).reason))
    {
      if !phase.Open? {
        return Failure(Unusable);
      }
      ghost var before := FullParts(Scope(), 0, accepted, partSize);
      ghost var due := FullParts(Scope(), written, pending + data, partSize);
      FullPartsAppend(Scope(), 0, accepted, data, partSize);
      assert FullParts(Scope(), 0, accepted + data, partSize) == before + due;
      accepted := accepted + data;
      pending := pending + data;
      var sent, acked := SendFullChunks();
      if sent.Fail? {
        r := Failure(sent.error);
        assert 0 <= acked < |due| && GoThrough(due[..acked]);
        return;
      }
      assert client.log == opening + (before + due);
      return Success(|data|);
    }

    /** The chunking loop: send every full chunk of the pending bytes, in
        order, each at the offset after the last acknowledged byte, and stop
        at the first part that is cancelled or refused. */
    method SendFullChunks() returns (r: Outcome, ghost acked: nat)
      requires partSize > 0 && phase.Open?
      requires written + |pending| == |accepted| && pending == accepted[written..]
      modifies this`written, this`pending, this`phase, client
      ensures written + |pending| == |accepted| && pending == accepted[written..]
      ensures Remainder(pending, partSize) == Remainder(old(pending), partSize)
      ensures var due := FullParts(Scope(), old(written), old(pending), partSize);
        && acked <= |due|
        && GoThrough(due[..acked])
        && written == old(written) + acked * partSize
        && (r.Pass? <==> GoThrough(due))
        && (r.Pass? ==> acked == |due| && phase.Open? && |pending| < partSize && client.log == old(client.log) + due)
        && (r.Fail? ==>
              && acked < |due| && phase == Failed(r.error)
              && client.log == old(client.log) + due[..if cancelled then acked else acked + 1]
              && (if cancelled then r.error == Cancelled
              else client.uploadPartFn(due[acked]).PartFailed? && r.error == Transport(client.uploadPartFn(due[acked]).reason)))
    {
      ghost var log0, written0 := client.log, written;
      ghost var due := FullParts(Scope(), written, pending, partSize);
      ghost var sent: seq<Call> := [];
      while |pending| >= partSize
        invariant phase.Open?
        invariant written + |pending| == |accepted| && pending == accepted[written..]
        invariant Remainder(pending, partSize) == Remainder(old(pending), partSize)
        invariant client.log == log0 + sent
        invariant sent + FullParts(Scope(), written, pending, partSize) == due
        invariant GoThrough(sent)
        invariant written == written0 + |sent| * partSize
        decreases |pending|
      {
        ghost var rest := FullParts(Scope(), written + partSize, pending[partSize..], partSize);
        ghost var call := PartCall(Scope(), written, pending[..partSize]);
        assert FullParts(Scope(), written, pending, partSize) == [call] + rest;
        assert due == (sent + [call]) + rest;
        assert due[|sent|] == call;
        assert due[..|sent|] == sent;
        if cancelled {
          phase := Failed(Cancelled);
          return Fail(Cancelled), |sent|;
        }
        var reply := SendChunk();
        assert due[..|sent| + 1] == sent + [call];
        if reply.PartFailed? {
          phase := Failed(Transport(reply.reason));
          return Fail(Transport(reply.reason)), |sent|;
        }
        MulSucc(|sent|, partSize);
        assert FullParts(Scope(), written, pending, partSize) == rest;
        sent := sent + [call];
      }
      assert FullParts(Scope(), written, pending, partSize) == [];
      assert sent == due;
      assert due[..|sent|] == due;
      return Pass, |sent|;
    }

    /** One step of the chunking loop: the first full chunk of the pending
        bytes goes out as one part at the offset after the last acknowledged
        byte; once the registry acknowledges it, the counter advances past
        it and it leaves the buffer. */
    method SendChunk() returns (r: PartReply)
      requires partSize > 0 && |pending| >= partSize
      requires written + |pending| == |accepted| && pending == accepted[written..]
      modifies this`written, this`pending, client
      ensures written + |pending| == |accepted| && pending == accepted[written..]
      ensures var call := PartCall(Scope(), old(written), old(pending)[..partSize]);
        client.log == old(client.log) + [call] && r == client.uploadPartFn(call)
      ensures r.PartUploaded? ==> written == old(written) + partSize && pending == old(pending)[partSize..]
      ensures r.PartFailed? ==> written == old(written) && pending == old(pending)
    {
      var chunk := pending[..partSize];
      r := client.UploadLayerPart(identity.registryId, identity.repository, uploadId,
                                  written, written + |chunk| - 1, chunk);
      if r.PartUploaded? {
        assert accepted[written + partSize..] == pending[partSize..];
        written := written + partSize;
        pending := pending[partSize..];
      }
    }

    /** Commit sends the pending bytes as one final part, then asks the
        registry to complete the upload under the expected digest, exactly
        once. A writer whose own context was cancelled holds the final part
        back but still completes, so "already exists" still wins. */
    method Commit(size: int, expected: Digest) returns (r: Outcome)
      requires Valid()
      modifies this, client
      ensures Valid() && accepted == old(accepted) && opening == old(opening)
      ensures !old(phase).Open? ==>
        && r == Fail(Unusable) && phase == old(phase) && client.log == old(client.log)
        && written == old(written) && pending == old(pending)
      ensures old(phase).Open? ==>
        var flush := Flush(Scope(), old(written), old(pending));
        if cancelled || (flush != [] && client.uploadPartFn(flush[0]).PartFailed?) then
          written == old(written) && pending == old(pending)
        else
          written == |accepted| && pending == []
      ensures old(phase).Open? ==>
        var flush := Flush(Scope(), old(written), old(pending));
        var done := Complete(identity.registryId, identity.repository, uploadId, expected);
        if flush != [] && !cancelled && client.uploadPartFn(flush[0]).PartFailed? then
          && client.log == old(client.log) + flush
          && r == Fail(Transport(client.uploadPartFn(flush[0]).reason))
          && phase == Failed(r.error)
        else
          && client.log == old(client.log) + (if cancelled then [] else flush) + [done]
          && r == CommitOutcome(client.completeFn(done), expected, cancelled && flush != [])
          && phase == (if r.Pass? then Committed else Failed(r.error))
      ensures old(phase).Open? && GoThrough(Flush(Scope(), old(written), old(pending))) ==>
        client.log == opening
                      + (if partSize > 0 then Parts(Scope(), 0, accepted, partSize) else [])
                      + [Complete(identity.registryId, identity.repository, uploadId, expected)]
    {
      if !phase.Open? {
        return Fail(Unusable);
      }
      if partSize > 0 {
        PartsSplit(Scope(), 0, accepted, partSize);
      }
      var sent, unsent := SendFinalPart();
      if sent.Fail? {
        return sent;
      }
      var reply := client.CompleteLayerUpload(identity.registryId, identity.repository, uploadId, expected);
      r := CommitOutcome(reply, expected, unsent);
      phase := if r.Pass? then Committed else Failed(r.error);
    }

    /** The final short part: the pending bytes, if any, go out as one part
        at the offset after the last acknowledged byte, unless the writer's
        context is cancelled, in which case they are held back. */
    method SendFinalPart() returns (r: Outcome, unsent: bool)
      requires phase.Open?
      requires written + |pending| == |accepted| && pending == accepted[written..]
      modifies this`written, this`pending, this`phase, client
      ensures written + |pending| == |accepted| && pending == accepted[written..]
      ensures var flush := Flush(Scope(), old(written), old(pending));
        && unsent == (cancelled && flush != [])
        && (r.Fail? <==> flush != [] && !cancelled && client.uploadPartFn(flush[0]).PartFailed?)
        && (r.Fail? ==>
              && client.log == old(client.log) + flush
              && r == Fail(Transport(client.uploadPartFn(flush[0]).reason))
              && phase == Failed(r.error))
        && (r.Pass? ==> phase.Open? && client.log == old(client.log) + (if cancelled then [] else flush))
      ensures if r.Pass? && !unsent then written == old(written) + |old(pending)| && pending == []
              else written == old(written) && pending == old(pending)
    {
      r, unsent := Pass, false;
      if pending != [] {
        if cancelled {
          unsent := true;
        } else {
          var reply := client.UploadLayerPart(identity.registryId, identity.repository, uploadId,
                                              written, written + |pending| - 1, pending);
          if reply.PartFailed? {
            phase := Failed(Transport(reply.reason));
            return Fail(Transport(reply.reason)), false;
          }
          written := written + |pending|;
          pending := [];
        }
      }
    }

    /** While the writer is open, the bytes the client has received in part
        calls are exactly the first `written` bytes accepted: the counter
        only ever reflects acknowledged parts. */
    lemma AcknowledgedBytes()
      requires Valid() && phase.Open?
      ensures Blobs(client.log[|opening|..]) == accepted[..written]
    {
      assert client.log[|opening|..] == FullParts(Scope(), 0, accepted, partSize);
      if partSize > 0 {
        FullPartsBlobs(Scope(), 0, accepted, partSize);
      }
    }

    /** While the writer is open, the client has received nothing from it
        but upload-part calls of its own session: no second initiate and no
        complete before Commit. */
    lemma OnlyPartsWhileOpen()
      requires Valid() && phase.Open?
      ensures forall k | |opening| <= k < |client.log| ::
        && client.log[k].UploadPart?
        && client.log[k].registryId == identity.registryId
        && client.log[k].repository == identity.repository
        && client.log[k].uploadId == uploadId
    {
      FullPartsInSession(Scope(), 0, accepted, partSize);
      assert forall k | |opening| <= k < |client.log| ::
        client.log[k] == FullParts(Scope(), 0, accepted, partSize)[k - |opening|];
    }
  }

  /** newLayerWriter: initiate the upload, exactly once, and on success
      return a writer bound to the returned upload id and part size. The
      client sees one initiate call and nothing else. */
  method NewLayerWriter(client: Client, identity: Identity) returns (r: Result<LayerWriter>)
    modifies client
    ensures client.log == old(client.log) + [Initiate(identity.registryId, identity.repository)]
    ensures var reply := client.initiateFn(Initiate(identity.registryId, identity.repository));
      match reply
      case Initiated(uploadId, partSize) =>
        && r.Success? && fresh(r.value) && r.value.Valid()
        && r.value.client == client && r.value.identity == identity
        && r.value.uploadId == uploadId && r.value.partSize == partSize && !r.value.cancelled
        && r.value.written == 0 && r.value.pending == [] && r.value.phase == Open
        && r.value.accepted == [] && r.value.opening == client.log
      case InitiateFailed(reason) => r == Failure(Transport(reason))
  {
    var reply := client.InitiateLayerUpload(identity.registryId, identity.repository);
    match reply
    case InitiateFailed(reason) =>
      r := Failure(Transport(reason));
    case Initiated(uploadId, partSize) =>
      var w := new LayerWriter(client, identity, uploadId, partSize, false);
      r := Success(w);
  }
}
