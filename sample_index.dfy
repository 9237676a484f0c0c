/** The flat sample index of the event-velocity dataset: one entry per
    recording, per query timestamp of that recording and per temporal bin,
    enumerated recording by recording (in load order), timestamp by timestamp
    (ascending) and bin by bin (0 .. bins-1).

    The index depends on the recordings only through their numbers of query
    timestamps, so it is defined over `counts`, where counts[f] is the number
    of query timestamps of recording f. */
module SampleIndex {

  /** One entry of the index: (file_idx, ts_idx, bin_idx). */
  datatype Triple = Triple(fileIdx: nat, tsIdx: nat, binIdx: nat)

  /** The entries the innermost loop appends for timestamp `t` of file `f`
      after `b` iterations: bins 0 .. b-1. */
  function Row(f: nat, t: nat, b: nat): seq<Triple>
  {
    if b == 0 then [] else Row(f, t, b - 1) + [Triple(f, t, b - 1)]
  }

  /** The entries appended for the first `q` query timestamps of file `f`. */
  function Block(f: nat, q: nat, bins: nat): seq<Triple>
  {
    if q == 0 then [] else Block(f, q - 1, bins) + Row(f, q - 1, bins)
  }

  /** The whole index for files with the given timestamp counts, in load order. */
  function Index(counts: seq<nat>, bins: nat): seq<Triple>
  {
    if counts == [] then []
    else Index(counts[..|counts| - 1], bins) + Block(|counts| - 1, counts[|counts| - 1], bins)
  }

  /** Appending a file appends its block, as the outer loop does. */
  lemma IndexSnoc(counts: seq<nat>, q: nat, bins: nat)
    ensures Index(counts + [q], bins) == Index(counts, bins) + Block(|counts|, q, bins)
  {
  }

  /** The sum over the files of (number of query timestamps) * bins. */
  function Total(counts: seq<nat>, bins: nat): nat
  {
    if counts == [] then 0
    else Total(counts[..|counts| - 1], bins) + Mul(counts[|counts| - 1], bins)
  }

  /** An entry names an existing file, one of its timestamps and an existing bin. */
  predicate InRange(counts: seq<nat>, bins: nat, e: Triple)
  {
    e.fileIdx < |counts| && e.tsIdx < counts[e.fileIdx] && e.binIdx < bins
  }

  /** The flat position of an entry: the entries of all earlier files, then
      `bins` entries per earlier timestamp of its own file, then its bin. */
  function Encode(counts: seq<nat>, bins: nat, e: Triple): nat
    requires e.fileIdx <= |counts|
  {
    Total(counts[..e.fileIdx], bins) + Mul(e.tsIdx, bins) + e.binIdx
  }

  /** The entry at flat position `k`, computed arithmetically. */
  function Decode(counts: seq<nat>, bins: nat, k: nat): (e: Triple)
    requires k < Total(counts, bins)
    ensures InRange(counts, bins, e)
    decreases |counts|
  {
    var n := |counts| - 1;
    var base := Total(counts[..n], bins);
    if k < base then
      var e := Decode(counts[..n], bins, k);
      assert counts[..n][e.fileIdx] == counts[e.fileIdx];
      e
    else
      DivBelow(k - base, counts[n], bins);
      Triple(n, (k - base) / bins, (k - base) % bins)
  }

  // Arithmetic helpers. Products are written with Mul, a recursive
  // definition of multiplication, so that the index lemmas stay linear;
  // MulIsTimes connects it to `*`, `/` and `%` where division is needed.

  /** a * b as repeated addition. */
  function Mul(a: nat, b: nat): nat
  {
    if a == 0 then 0 else Mul(a - 1, b) + b
  }

  lemma {:induction false} MulIsTimes(a: nat, b: nat)
    ensures Mul(a, b) == a * b
  {
    if a > 0 {
      MulIsTimes(a - 1, b);
    }
  }

  lemma {:induction false} MulMono(a: nat, b: nat, c: nat)
    requires a <= b
    ensures Mul(a, c) <= Mul(b, c)
    decreases b
  {
    if a < b {
      MulMono(a, b - 1, c);
    }
  }

  lemma MulCancel(a: nat, b: nat, c: nat)
    requires Mul(a, c) < Mul(b, c)
    ensures a < b
  {
    if b <= a {
      MulMono(b, a, c);
    }
  }

  lemma {:induction false} MulZero(a: nat)
    ensures Mul(a, 0) == 0
  {
    if a > 0 {
      MulZero(a - 1);
    }
  }

  /** Euclidean division in terms of Mul. */
  lemma DivMod(j: nat, bins: nat)
    requires bins > 0
    ensures Mul(j / bins, bins) + j % bins == j && j % bins < bins
  {
    MulIsTimes(j / bins, bins);
  }

  lemma DivBelow(j: nat, q: nat, bins: nat)
    requires j < Mul(q, bins)
    ensures bins > 0 && j / bins < q
  {
    MulZero(q);
    DivMod(j, bins);
    MulCancel(j / bins, q, bins);
  }

  lemma RowMajor(t: nat, b: nat, bins: nat)
    requires b < bins
    ensures (Mul(t, bins) + b) / bins == t && (Mul(t, bins) + b) % bins == b
  {
    var k := Mul(t, bins) + b;
    DivMod(k, bins);
    var d := k / bins;
    if d > t {
      MulMono(t + 1, d, bins);
    } else if d < t {
      MulMono(d + 1, t, bins);
    }
  }

  lemma BelowBlock(t: nat, b: nat, q: nat, bins: nat)
    requires t < q && b < bins
    ensures Mul(t, bins) + b < Mul(q, bins)
  {
    MulMono(t + 1, q, bins);
  }

  // Lengths.

  lemma {:induction false} RowLength(f: nat, t: nat, b: nat)
    ensures |Row(f, t, b)| == b
  {
    if b > 0 {
      RowLength(f, t, b - 1);
    }
  }

  lemma {:induction false} BlockLength(f: nat, q: nat, bins: nat)
    ensures |Block(f, q, bins)| == Mul(q, bins)
  {
    if q > 0 {
      BlockLength(f, q - 1, bins);
      RowLength(f, q - 1, bins);
    }
  }

  /** The index has exactly Total(counts, bins) entries. */
  lemma {:induction false} IndexLength(counts: seq<nat>, bins: nat)
    ensures |Index(counts, bins)| == Total(counts, bins)
    decreases |counts|
  {
    if counts != [] {
      IndexLength(counts[..|counts| - 1], bins);
      BlockLength(|counts| - 1, counts[|counts| - 1], bins);
    }
  }

  // Positions.

  lemma {:induction false} RowAt(f: nat, t: nat, b: nat, i: nat)
    requires i < b
    ensures |Row(f, t, b)| == b && Row(f, t, b)[i] == Triple(f, t, i)
  {
    RowLength(f, t, b);
    if i < b - 1 {
      RowAt(f, t, b - 1, i);
    } else {
      RowLength(f, t, b - 1);
    }
  }

  lemma {:induction false} BlockAt(f: nat, q: nat, bins: nat, t: nat, b: nat)
    requires t < q && b < bins
    ensures |Block(f, q, bins)| == Mul(q, bins)
    ensures Mul(t, bins) + b < Mul(q, bins) && Block(f, q, bins)[Mul(t, bins) + b] == Triple(f, t, b)
  {
    BlockLength(f, q, bins);
    BlockLength(f, q - 1, bins);
    BelowBlock(t, b, q, bins);
    if t < q - 1 {
      BelowBlock(t, b, q - 1, bins);
      BlockAt(f, q - 1, bins, t, b);
    } else {
      RowAt(f, t, bins, b);
    }
  }

  /** Deterministic ordering: the entry (f, t, b) sits at offset
      Total(counts[..f]) + t * bins + b of the index. */
  lemma {:induction false} IndexAt(counts: seq<nat>, bins: nat, e: Triple)
    requires InRange(counts, bins, e)
    ensures Encode(counts, bins, e) < |Index(counts, bins)|
    ensures Index(counts, bins)[Encode(counts, bins, e)] == e
    decreases |counts|
  {
    var n := |counts| - 1;
    var prefix := counts[..n];
    var earlier, last := Index(prefix, bins), Block(n, counts[n], bins);
    assert Index(counts, bins) == earlier + last;
    IndexLength(prefix, bins);
    var k := Encode(counts, bins, e);
    if e.fileIdx == n {
      assert counts[..e.fileIdx] == prefix;
      var j := Mul(e.tsIdx, bins) + e.binIdx;
      assert k == |earlier| + j;
      BlockAt(n, counts[n], bins, e.tsIdx, e.binIdx);
      assert (earlier + last)[k] == last[j];
    } else {
      assert prefix[..e.fileIdx] == counts[..e.fileIdx];
      assert InRange(prefix, bins, e);
      IndexAt(prefix, bins, e);
      assert Encode(prefix, bins, e) == k;
      assert (earlier + last)[k] == earlier[k];
    }
  }

  /** Round trip: decoding the position of an entry gives the entry back. */
  lemma {:induction false} DecodeEncode(counts: seq<nat>, bins: nat, e: Triple)
    requires InRange(counts, bins, e)
    ensures Encode(counts, bins, e) < Total(counts, bins)
    ensures Decode(counts, bins, Encode(counts, bins, e)) == e
    decreases |counts|
  {
    var n := |counts| - 1;
    var prefix := counts[..n];
    var k := Encode(counts, bins, e);
    if e.fileIdx == n {
      assert counts[..e.fileIdx] == prefix;
      BelowBlock(e.tsIdx, e.binIdx, counts[n], bins);
      RowMajor(e.tsIdx, e.binIdx, bins);
    } else {
      assert prefix[..e.fileIdx] == counts[..e.fileIdx];
      assert prefix[e.fileIdx] == counts[e.fileIdx];
      DecodeEncode(prefix, bins, e);
    }
  }

  /** Round trip: every position below Total is the position of its decoding. */
  lemma {:induction false} EncodeDecode(counts: seq<nat>, bins: nat, k: nat)
    requires k < Total(counts, bins)
    ensures Encode(counts, bins, Decode(counts, bins, k)) == k
    decreases |counts|
  {
    var n := |counts| - 1;
    var prefix := counts[..n];
    var base := Total(prefix, bins);
    var e := Decode(counts, bins, k);
    if k < base {
      EncodeDecode(prefix, bins, k);
      assert prefix[..e.fileIdx] == counts[..e.fileIdx];
    } else {
      assert counts[..n] == prefix;
      DivBelow(k - base, counts[n], bins);
      DivMod(k - base, bins);
    }
  }

  /** Every stored entry is the arithmetic decoding of its position, so it is in range. */
  lemma IndexDecode(counts: seq<nat>, bins: nat, k: nat)
    requires k < |Index(counts, bins)|
    ensures k < Total(counts, bins)
    ensures Index(counts, bins)[k] == Decode(counts, bins, k)
    ensures InRange(counts, bins, Index(counts, bins)[k])
  {
    IndexLength(counts, bins);
    var e := Decode(counts, bins, k);
    EncodeDecode(counts, bins, k);
    IndexAt(counts, bins, e);
  }
}
