/** The two layer-writer tests of the repository, as methods whose
    postconditions pin every call the scripted client receives. */
module EcrLayerWriterTest {
  import opened EcrClient
  import opened Chunking
  import opened EcrLayerWriter

  /** The bytes of an ASCII string. */
  function Bytes(s: string): (b: seq<byte>)
    requires forall i | 0 <= i < |s| :: s[i] as int < 0x100
    ensures |b| == |s| && forall i | 0 <= i < |s| :: b[i] as int == s[i] as int
  {
    seq(|s|, i requires 0 <= i < |s| => s[i] as int as byte)
  }

  const LAYER_DIGEST: Digest := "sha256:" + "0000000000000000000000000000000000000000000000000000000000000000"

  /** TestLayerWriter: with part size 1, writing "layer" and committing makes
      one initiate call at construction and nothing else, then parts (0,0)
      through (4,4) carrying 'l', 'a', 'y', 'e', 'r', then one complete call
      under the upload id and the layer's digest; Write reports all five
      bytes and Commit succeeds. */
  method TestLayerWriter() returns (afterNew: seq<Call>, written: Result<nat>, committed: Outcome, log: seq<Call>)
    ensures afterNew == [Initiate("registry", "repository")]
    ensures written == Success(5)
    ensures committed == Pass
    ensures |log| == 7
    ensures log[0] == Initiate("registry", "repository")
    ensures forall k | 0 <= k < 5 ::
      log[1 + k] == UploadPart("registry", "repository", "upload", k, k, [Bytes("layer")[k]])
    ensures log[6] == Complete("registry", "repository", "upload", LAYER_DIGEST)
  {
    var client := new Client(c => Initiated("upload", 1), c => PartUploaded, c => Completed(LAYER_DIGEST));
    var created := NewLayerWriter(client, Identity("registry", "repository"));
    afterNew := client.log;
    var lw := created.value;
    assert lw.partSize == 1 && !lw.cancelled && lw.phase == Open;
    var data := Bytes("layer");
    assert lw.GoThrough(FullParts(lw.Scope(), 0, [] + data, 1));
    written := lw.Write(data);
    assert lw.phase == Open && lw.accepted == data;
    assert lw.pending == [] by {
      assert |Remainder(data, 1)| < 1;
    }
    assert lw.GoThrough(Flush(lw.Scope(), lw.written, lw.pending));
    committed := lw.Commit(5, LAYER_DIGEST);
    assert committed == CommitOutcome(Completed(LAYER_DIGEST), LAYER_DIGEST, false);
    log := client.log;
    assert log == afterNew + Parts(lw.Scope(), 0, data, 1) + [Complete("registry", "repository", "upload", LAYER_DIGEST)];
    SingleByteParts(lw.Scope(), 0, data);
  }

  /** TestLayerWriterCommitExists: a writer put together directly, with no
      upload id, no part size, nothing written and its own context already
      cancelled, commits successfully when the registry answers "layer
      already exists"; the client receives the complete call and nothing
      else, so its unscripted initiate and part operations are never
      reached. */
  method TestLayerWriterCommitExists() returns (committed: Outcome, log: seq<Call>)
    ensures committed == Pass
    ensures log == [Complete("registry", "repository", "", "sha256:digest")]
  {
    var client := new Client(c => InitiateFailed("not scripted"), c => PartFailed("not scripted"),
                             c => LayerAlreadyExists);
    var lw := new LayerWriter(client, Identity("registry", "repository"), "", 0, true);
    committed := lw.Commit(0, "sha256:digest");
    log := client.log;
  }
}
