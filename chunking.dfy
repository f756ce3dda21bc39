/** How a layer's byte stream is cut into upload-part calls: full chunks of
    the negotiated part size at contiguous, zero-based, inclusive offsets,
    then one short chunk with whatever is left. */
module Chunking {
  import opened EcrClient

  /** The fields every part call of one upload session carries unchanged. */
  datatype Session = Session(registryId: string, repository: string, uploadId: string)

  /** The upload-part call that sends `blob` starting at byte `first` of the
      layer; the last byte is inclusive, so an n-byte blob ends at first + n - 1. */
  function PartCall(s: Session, first: int, blob: seq<byte>): Call
  {
    UploadPart(s.registryId, s.repository, s.uploadId, first, first + |blob| - 1, blob)
  }

  /** The part calls for every full `p`-byte chunk of `data`, the first of
      them at offset `base`; a trailing chunk shorter than `p` is not sent. */
  function FullParts(s: Session, base: int, data: seq<byte>, p: nat): seq<Call>
    decreases |data|
  {
    if p == 0 || |data| < p then []
    else [PartCall(s, base, data[..p])] + FullParts(s, base + p, data[p..], p)
  }

  /** The bytes of `data` that are left once every full chunk is taken off. */
  function Remainder(data: seq<byte>, p: nat): (r: seq<byte>)
    ensures p > 0 ==> |r| < p
    ensures |r| <= |data|
    decreases |data|
  {
    if p == 0 || |data| < p then data else Remainder(data[p..], p)
  }

  /** The remainder is the tail of the layer, after its last full chunk. */
  lemma {:induction false} RemainderIsSuffix(data: seq<byte>, p: nat)
    ensures Remainder(data, p) == data[|data| - |Remainder(data, p)|..]
    decreases |data|
  {
    if p > 0 && |data| >= p {
      RemainderIsSuffix(data[p..], p);
    }
  }

  /** The final short part, sent only if some bytes are left. */
  function Flush(s: Session, base: int, rest: seq<byte>): seq<Call>
  {
    if rest == [] then [] else [PartCall(s, base, rest)]
  }

  /** Every part call of a whole layer `data`: chunks of `p` bytes, the last
      one possibly shorter, starting at offset `base`. */
  function Parts(s: Session, base: int, data: seq<byte>, p: nat): seq<Call>
    requires p > 0
    decreases |data|
  {
    if |data| == 0 then []
    else if |data| <= p then [PartCall(s, base, data)]
    else [PartCall(s, base, data[..p])] + Parts(s, base + p, data[p..], p)
  }

  /** The bytes a sequence of calls transfers, in call order. */
  function Blobs(calls: seq<Call>): seq<byte>
  {
    if calls == [] then []
    else (if calls[0].UploadPart? then calls[0].blob else []) + Blobs(calls[1..])
  }

  /** Cutting `data + extra` into full chunks is cutting `data`, then
      continuing from `data`'s remainder followed by `extra` at the next
      offset. This is what lets a writer send chunks as bytes arrive. */
  lemma {:induction false} FullPartsAppend(s: Session, base: int, data: seq<byte>, extra: seq<byte>, p: nat)
    ensures FullParts(s, base, data + extra, p)
         == FullParts(s, base, data, p)
            + FullParts(s, base + |data| - |Remainder(data, p)|, Remainder(data, p) + extra, p)
    ensures Remainder(data + extra, p) == Remainder(Remainder(data, p) + extra, p)
    decreases |data|
  {
    if p == 0 || |data| < p {
      assert Remainder(data, p) == data;
      assert FullParts(s, base, data, p) == [];
    } else {
      var r := Remainder(data, p);
      var c := PartCall(s, base, data[..p]);
      assert (data + extra)[..p] == data[..p];
      assert (data + extra)[p..] == data[p..] + extra;
      assert r == Remainder(data[p..], p);
      assert base + p + |data[p..]| - |r| == base + |data| - |r|;
      FullPartsAppend(s, base + p, data[p..], extra, p);
      var head := FullParts(s, base + p, data[p..], p);
      var tail := FullParts(s, base + |data| - |r|, r + extra, p);
      assert FullParts(s, base + p, data[p..] + extra, p) == head + tail;
      assert FullParts(s, base, data + extra, p) == [c] + (head + tail);
      assert [c] + (head + tail) == ([c] + head) + tail;
      assert FullParts(s, base, data, p) == [c] + head;
    }
  }

  /** All the parts of a layer are its full chunks and then the flush of its remainder. */
  lemma {:induction false} PartsSplit(s: Session, base: int, data: seq<byte>, p: nat)
    requires p > 0
    ensures var r := Remainder(data, p);
      Parts(s, base, data, p) == FullParts(s, base, data, p) + Flush(s, base + |data| - |r|, r)
    decreases |data|
  {
    if |data| == 0 {
    } else if |data| < p {
    } else if |data| == p {
      assert data[..p] == data;
      assert Remainder(data[p..], p) == [];
    } else {
      PartsSplit(s, base + p, data[p..], p);
    }
  }

  /** Concatenating the blobs of the part calls gives back the layer. */
  lemma {:induction false} PartsReassemble(s: Session, base: int, data: seq<byte>, p: nat)
    requires p > 0
    ensures Blobs(Parts(s, base, data, p)) == data
    decreases |data|
  {
    if |data| == 0 {
    } else if |data| <= p {
      var c := PartCall(s, base, data);
      BlobsCons(c, []);
      assert [c] + [] == [c];
    } else {
      var c := PartCall(s, base, data[..p]);
      var rest := Parts(s, base + p, data[p..], p);
      assert Parts(s, base, data, p) == [c] + rest;
      PartsReassemble(s, base + p, data[p..], p);
      BlobsCons(c, rest);
      SplitAt(data, p);
    }
  }

  /** The full chunks carry the layer up to its remainder. */
  lemma {:induction false} FullPartsBlobs(s: Session, base: int, data: seq<byte>, p: nat)
    requires p > 0
    ensures Blobs(FullParts(s, base, data, p)) == data[..|data| - |Remainder(data, p)|]
    decreases |data|
  {
    if |data| >= p {
      FullPartsBlobs(s, base + p, data[p..], p);
      BlobsCons(PartCall(s, base, data[..p]), FullParts(s, base + p, data[p..], p));
      var n := |data| - |Remainder(data, p)|;
      assert data[..p] + data[p..][..n - p] == data[..n];
    }
  }

  /** A sequence is its first n elements followed by the rest. */
  lemma SplitAt(data: seq<byte>, n: nat)
    requires n <= |data|
    ensures data[..n] + data[n..] == data
  {
  }

  /** The blobs of a call followed by more calls. */
  lemma BlobsCons(c: Call, rest: seq<Call>)
    requires c.UploadPart?
    ensures Blobs([c] + rest) == c.blob + Blobs(rest)
  {
    assert ([c] + rest)[1..] == rest;
  }

  /** Full-chunk calls are upload-part calls of the session, nothing else. */
  lemma {:induction false} FullPartsInSession(s: Session, base: int, data: seq<byte>, p: nat)
    ensures forall k | 0 <= k < |FullParts(s, base, data, p)| ::
      && FullParts(s, base, data, p)[k].UploadPart?
      && FullParts(s, base, data, p)[k].registryId == s.registryId
      && FullParts(s, base, data, p)[k].repository == s.repository
      && FullParts(s, base, data, p)[k].uploadId == s.uploadId
    decreases |data|
  {
    if p > 0 && |data| >= p {
      FullPartsInSession(s, base + p, data[p..], p);
    }
  }

  /** A layer with bytes in it has at least one part. */
  lemma PartsNonEmpty(s: Session, base: int, data: seq<byte>, p: nat)
    requires p > 0
    ensures |Parts(s, base, data, p)| >= 1 <==> |data| >= 1
  {
  }

  /** The k-th part call: it carries the session's registry, repository and
      upload id; it starts at byte base + k * p; it holds between 1 and p
      bytes, exactly the bytes of the layer at those offsets; and its last
      byte is inclusive. */
  lemma {:induction false} PartAt(s: Session, base: int, data: seq<byte>, p: nat, k: nat)
    requires p > 0 && k < |Parts(s, base, data, p)|
    ensures var parts := Parts(s, base, data, p);
      var c := parts[k];
      && c.UploadPart?
      && c.registryId == s.registryId && c.repository == s.repository && c.uploadId == s.uploadId
      && c.first == base + k * p
      && 1 <= |c.blob| <= p
      && c.last == c.first + |c.blob| - 1
      && k * p + |c.blob| <= |data|
      && c.blob == data[k * p .. k * p + |c.blob|]
    decreases |data|
  {
    if |data| <= p {
      assert data[0..|data|] == data;
    } else {
      var c := PartCall(s, base, data[..p]);
      var rest := Parts(s, base + p, data[p..], p);
      assert Parts(s, base, data, p) == [c] + rest;
      if k == 0 {
        PartsNonEmpty(s, base + p, data[p..], p);
        assert data[..p] == data[0..p];
      } else {
        PartAt(s, base + p, data[p..], p, k - 1);
        assert Parts(s, base, data, p)[k] == rest[k - 1];
        MulSucc(k - 1, p);
        SliceOfDrop(data, p, (k - 1) * p, |rest[k - 1].blob|);
      }
    }
  }

  /** Every part but the last is full, and the last part ends at the
      layer's last byte. */
  lemma {:induction false} PartLengths(s: Session, base: int, data: seq<byte>, p: nat, k: nat)
    requires p > 0 && k < |Parts(s, base, data, p)|
    ensures var parts := Parts(s, base, data, p);
      && parts[k].UploadPart?
      && (k + 1 < |parts| ==> |parts[k].blob| == p)
      && (k + 1 == |parts| ==> parts[k].last == base + |data| - 1)
    decreases |data|
  {
    if |data| > p {
      var rest := Parts(s, base + p, data[p..], p);
      assert Parts(s, base, data, p) == [PartCall(s, base, data[..p])] + rest;
      if k == 0 {
        PartsNonEmpty(s, base + p, data[p..], p);
      } else {
        PartLengths(s, base + p, data[p..], p, k - 1);
        assert Parts(s, base, data, p)[k] == rest[k - 1];
      }
    }
  }

  /** Slicing after dropping p elements is slicing further along. */
  lemma SliceOfDrop(data: seq<byte>, p: nat, o: nat, m: nat)
    requires p + o + m <= |data|
    ensures data[p..][o .. o + m] == data[p + o .. p + o + m]
  {
  }

  /** Consecutive part calls are contiguous and do not overlap: each one
      starts right after the byte the previous one ended on. */
  lemma PartsContiguous(s: Session, base: int, data: seq<byte>, p: nat, k: nat)
    requires p > 0 && k + 1 < |Parts(s, base, data, p)|
    ensures Parts(s, base, data, p)[k].UploadPart? && Parts(s, base, data, p)[k + 1].UploadPart?
    ensures Parts(s, base, data, p)[k + 1].first == Parts(s, base, data, p)[k].last + 1
  {
    PartAt(s, base, data, p, k);
    PartLengths(s, base, data, p, k);
    PartAt(s, base, data, p, k + 1);
    MulSucc(k, p);
  }

  /** The full chunks and the remainder account for every byte of the layer. */
  lemma {:induction false} ChunkSizes(s: Session, base: int, data: seq<byte>, p: nat)
    requires p > 0
    ensures |FullParts(s, base, data, p)| * p + |Remainder(data, p)| == |data|
    decreases |data|
  {
    if |data| >= p {
      ChunkSizes(s, base + p, data[p..], p);
      MulSucc(|FullParts(s, base + p, data[p..], p)|, p);
    }
  }

  /** There are floor(n / p) full chunks and n mod p bytes left over, so the
      layer takes ceil(n / p) part calls in all. */
  lemma ChunkCount(s: Session, base: int, data: seq<byte>, p: nat)
    requires p > 0
    ensures |FullParts(s, base, data, p)| == |data| / p
    ensures |Remainder(data, p)| == |data| % p
    ensures |Parts(s, base, data, p)| == |data| / p + (if |data| % p == 0 then 0 else 1)
  {
    ChunkSizes(s, base, data, p);
    DivisionUnique(|data|, p, |FullParts(s, base, data, p)|, |Remainder(data, p)|);
    PartsSplit(s, base, data, p);
  }

  /** One more chunk is p more bytes. */
  lemma MulSucc(q: int, p: int)
    ensures (q + 1) * p == q * p + p
  {
  }

  /** Multiplying by a natural number keeps the order. */
  lemma MulMonotonic(a: int, b: int, p: nat)
    ensures a <= b ==> a * p <= b * p
  {
    if a <= b {
      assert b * p == a * p + (b - a) * p;
    }
  }

  /** Euclidean division has one quotient and one remainder. */
  lemma DivisionUnique(n: nat, p: nat, q: nat, r: nat)
    requires p > 0 && q * p + r == n && r < p
    ensures n / p == q && n % p == r
  {
    var q', r' := n / p, n % p;
    assert q' * p + r' == n;
    MulMonotonic(q + 1, q', p);
    MulMonotonic(q' + 1, q, p);
    MulSucc(q, p);
    MulSucc(q', p);
  }

  /** With a part size of one byte, the k-th part call sends byte k alone,
      at first byte = last byte = base + k, so a layer of n bytes takes
      exactly n part calls in stream order. */
  lemma SingleByteParts(s: Session, base: int, data: seq<byte>)
    ensures |Parts(s, base, data, 1)| == |data|
    ensures forall k | 0 <= k < |data| ::
      Parts(s, base, data, 1)[k] == UploadPart(s.registryId, s.repository, s.uploadId, base + k, base + k, [data[k]])
  {
    ChunkCount(s, base, data, 1);
    forall k | 0 <= k < |data|
      ensures Parts(s, base, data, 1)[k] == UploadPart(s.registryId, s.repository, s.uploadId, base + k, base + k, [data[k]])
    {
      PartAt(s, base, data, 1, k);
      assert data[k..k + 1] == [data[k]];
    }
  }
}
