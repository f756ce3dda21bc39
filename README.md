# ECR layer writer: a Dafny model of the chunked layer upload

This project models the layer writer of the Amazon ECR containerd resolver. A
layer writer pushes one image layer to one ECR repository through the
registry's chunked-upload API:

- `newLayerWriter` initiates the upload. It receives an upload id and the part
  size the registry wants.
- `Write` buffers bytes and sends every full chunk as an upload-part call. The
  calls cover contiguous, zero-based byte ranges and `last` is inclusive.
- `Commit` sends the remaining bytes as one final, shorter part and then
  completes the upload once. If the registry answers "layer already exists",
  the commit succeeds.

The writer's own source file is not part of this model. Its observable protocol
comes from the repository's test `ecr/layer_writer_test.go`. That test scripts
the remote client and checks every call the client receives. The remote client
is modelled on the fake client in `ecr/fake_ecr_client_test.go`.

Files and modules:

- `remote.dfy`, module `EcrClient`: bytes, digests, the registry identity, the
  call log entries (`Initiate`, `UploadPart(first, last, blob)`, `Complete`),
  the three replies, and the `Client` class. Each of the client's operations is
  answered by a scripted function of the request, and the client appends every
  request to its `log`.
- `chunking.dfy`, module `Chunking`: how a byte stream becomes part calls.
  - `FullParts` gives the full chunks and `Remainder` the bytes left over.
  - `Flush` is the final short part; `Parts` is every part of a whole layer.
  - The lemmas prove that the parts are contiguous, do not overlap, are in
    stream order, reassemble to the layer, and number ceil(n / p).
- `layer_writer.dfy`, module `EcrLayerWriter`: the `LayerWriter` class, with
  these fields:
  - the upload id and the part size;
  - the bytes-sent counter `written` and the `pending` buffer;
  - the client, whose log is the call log;
  - a phase (`Open`, `Failed`, `Committed`);
  - the ghost stream `accepted`.

  The module also holds `NewLayerWriter`, the chunking loop `SendFullChunks`
  with its single step `SendChunk`, `Commit` with its final part
  `SendFinalPart`, and `CommitOutcome`, which classifies the reply to the complete
  call.
- `layer_writer_test.dfy`, module `EcrLayerWriterTest`: the repository's two
  tests as methods. Their postconditions pin the exact call log.

Modelling decisions:

- Parts are sent synchronously from `Write`. The source does this through an
  `io.Pipe` and a goroutine, and the calls and their order are the same.
- The writer's cancelled context is a constant flag, `cancelled`.
  - It stops the writer from issuing part calls.
  - It does not stop the complete call, because `Commit` uses its own context
    (the test passes `context.Background()` to `Commit`).
  - "Layer already exists" wins over cancellation.
  - If the registry returns a digest but buffered bytes were held back by
    cancellation, `Commit` reports `Cancelled`.
- `TestLayerWriterCommitExists` builds the writer as a struct literal, with no
  upload id and a part size of 0. The class constructor is that literal. No
  initiate happens in it. `Write` requires a positive part size. This is a
  modelling choice: the registry always negotiates a positive part size (the
  `PartSize` type of the initiate reply), and the struct-literal writer, whose
  part size is 0, is never written to.
- The complete call carries the expected digest, as ECR's complete request
  does. It does not carry a byte total.
- Scripted replies are total functions. The source's fake client panics on an
  operation that is not scripted. The model proves that such an operation is
  never reached: the log contains no call to it.

## Model

| member | source | states |
|---|---|---|
| `EcrClient.Client.constructor` | ecr/fake_ecr_client_test.go:24-35 | A client is built from one scripted function per operation and starts with an empty call log |
| `EcrClient.Client.InitiateLayerUpload` | ecr/fake_ecr_client_test.go:51-53 | Appends exactly one initiate entry (registry id, repository) to the log and answers with the scripted initiate function of that request |
| `EcrClient.Client.UploadLayerPart` | ecr/fake_ecr_client_test.go:55-57 | Appends exactly one upload-part entry (ids, first byte, last byte, blob) to the log and answers with the scripted part function |
| `EcrClient.Client.CompleteLayerUpload` | ecr/fake_ecr_client_test.go:59-61 | Appends exactly one complete entry (ids, digest) to the log and answers with the scripted complete function |
| `Chunking.FullPartsAppend` | ecr/layer_writer_test.go:53-61 | Cutting `data + extra` into full chunks equals cutting `data`, then continuing from its remainder plus `extra` at the next offset; so chunks sent write by write match one pass over the whole stream |
| `Chunking.PartsSplit` | ecr/layer_writer_test.go:102-108 | A layer's parts are its full chunks followed by the flush of the remainder, placed right after the last full chunk |
| `Chunking.PartsReassemble` | ecr/layer_writer_test.go:57-60 | Concatenating the blobs of all part calls gives back exactly the layer's bytes |
| `Chunking.FullPartsBlobs` | ecr/layer_writer_test.go:57-60 | The full-chunk calls carry exactly the layer up to the start of its remainder |
| `Chunking.Remainder` | ecr/layer_writer_test.go:49-61 | The bytes left over after the full chunks are fewer than p and no more than the stream holds |
| `Chunking.RemainderIsSuffix` | ecr/layer_writer_test.go:102-108 | The bytes held back for the final part are the tail of the stream |
| `Chunking.FullPartsInSession` | ecr/layer_writer_test.go:54-56 | Every full-chunk call is an upload-part call carrying the session's registry id, repository and upload id |
| `Chunking.PartAt` | ecr/layer_writer_test.go:54-60 | Part k carries the session's ids and starts at base + k·p. It holds 1 to p bytes, exactly the layer's bytes at those offsets, with last = first + length − 1 |
| `Chunking.PartLengths` | ecr/layer_writer_test.go:57-60 | Every part but the last is a full p bytes, and the last part ends at the layer's last byte |
| `Chunking.PartsContiguous` | ecr/layer_writer_test.go:57-58 | Each part starts at the byte after the one where the previous part ended: contiguous and non-overlapping |
| `Chunking.ChunkSizes` | ecr/layer_writer_test.go:49-61 | Full chunks times p plus the remainder's length is the layer's length |
| `Chunking.ChunkCount` | ecr/layer_writer_test.go:49-61 | There are floor(n/p) full chunks and n mod p bytes left over, so ceil(n/p) part calls in all |
| `Chunking.SingleByteParts` | ecr/layer_writer_test.go:49-61 | With part size 1 there are exactly n parts, and part k is (k, k) carrying the single byte data[k] |
| `EcrLayerWriter.CommitOutcome` | ecr/layer_writer_test.go:116-142 | The commit succeeds if and only if the registry says the layer already exists, or returns the expected digest with no bytes held back. "Already exists" succeeds even under cancellation; a different digest is a digest-mismatch error |
| `EcrLayerWriter.NewLayerWriter` | ecr/layer_writer_test.go:93-97 | Issues exactly one initiate call and no part or complete call. On success the writer holds the returned upload id and part size, is open and has nothing written; an initiate error is returned and no writer is created |
| `EcrLayerWriter.LayerWriter.constructor` | ecr/layer_writer_test.go:126-138 | A writer assembled from a client, identity, upload id, part size and context state is open and valid, has nothing written, and makes no call |
| `EcrLayerWriter.LayerWriter.Write` | ecr/layer_writer_test.go:102-104 | On an open writer, all of `data` is accepted. The result is `Success` with the length of `data` exactly when all the full-chunk calls due at the next offsets go through, and then the whole due sequence was sent. On failure the first j due parts went through, the counter advanced by j·p, and the log gained those j parts plus the one refused (none when cancelled). A failed or committed writer returns `Unusable` and changes nothing |
| `EcrLayerWriter.LayerWriter.SendFullChunks` | ecr/layer_writer_test.go:53-61 | The loop sends the due full chunks in order at contiguous offsets and keeps the bytes-sent counter and the buffer consistent. On success the whole due sequence is sent and fewer than p bytes stay pending. It stops at the first part that is cancelled or refused: the first j parts went through, the counter advanced by exactly j·p, and the log holds those j parts plus the refused one (none when cancelled). The error is `Cancelled` or that part's refusal |
| `EcrLayerWriter.LayerWriter.SendChunk` | ecr/layer_writer_test.go:53-61 | Sends the first p pending bytes as exactly one part call at the next offset, with last = first + p − 1. Only an acknowledged part advances the counter and leaves the buffer; a refused one changes neither |
| `EcrLayerWriter.LayerWriter.Commit` | ecr/layer_writer_test.go:106-108 | On an open writer it flushes the pending bytes as one part and issues exactly one complete call. When every part went through, the whole log since creation is all the layer's parts followed by that one complete, and the counter equals every byte accepted with nothing pending. Its result is `CommitOutcome` of the reply. A failed final part stops before the complete; a cancelled writer or a refused final part leaves the counter and buffer as they were; a non-open writer returns `Unusable` and changes nothing |
| `EcrLayerWriter.LayerWriter.SendFinalPart` | ecr/layer_writer_test.go:106-108 | Sends the pending bytes, if any, as one part; a cancelled writer sends nothing and reports them as held back. The result fails exactly when that part is sent and refused. When it is sent and acknowledged the counter advances by its length and the buffer empties; otherwise both stay as they were |
| `EcrLayerWriter.LayerWriter.AcknowledgedBytes` | ecr/layer_writer_test.go:57-61 | While open, the bytes sent in part calls are exactly the first `written` bytes accepted |
| `EcrLayerWriter.LayerWriter.OnlyPartsWhileOpen` | ecr/layer_writer_test.go:93-97 | While open, every call since creation is an upload-part call with the session's ids: no second initiate, and no complete before Commit |
| `EcrLayerWriterTest.TestLayerWriter` | ecr/layer_writer_test.go:35-109 | After construction the log is one initiate. Write returns 5. Commit succeeds. The log is then the initiate, parts (0,0)…(4,4) carrying 'l','a','y','e','r', and one complete with upload id "upload" |
| `EcrLayerWriterTest.TestLayerWriterCommitExists` | ecr/layer_writer_test.go:111-143 | A struct-literal writer with a cancelled context and nothing written commits successfully on "already exists", and the log is exactly one complete call |

## Left out

- The containerd status tracker (`SetStatus` on each chunk and at commit) is not modelled. It is an external store with no effect on the calls.
- `io.Pipe` and the upload goroutine are left out. They are concurrency plumbing; parts are sent from `Write` directly, in the same order.
- Real `context` cancellation is reduced to the constant flag `cancelled`. It is fixed when the writer is built; it never fires part-way through a write.
- The AWS SDK input and output structs, `aws.String`/`aws.ToInt64`, ARN structure and digest parsing are left out because they are foreign libraries. Identities are a registry id and a repository name; digests are strings compared for equality.
- The read-side and manifest operations `BatchGetImage`, `GetDownloadUrlForLayer`, `BatchCheckLayerAvailability` and `PutImage` are left out because the writer does not use them.
- EcrLayerWriter.LayerWriter.Commit: the expected size parameter is accepted but not checked. Nothing in the modelled code shows a size check.
- The integer widths of offsets and part sizes (`int64`) are not modelled; offsets and sizes are unbounded integers.
- EcrClient.Client.constructor: a nil scripted function, which panics in the source, is modelled as a total scripted reply. The scenario postconditions show that such operations are never called.
