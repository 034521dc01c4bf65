/**
 * How the decoder's stdout splits into frames. The stream is one unframed
 * byte sequence carrying the frames of all triggers in turn: frame `k`
 * belongs to trigger `k mod N`, has that trigger's size and starts right
 * after frame `k - 1`. Everything here depends only on the per-trigger sizes
 * and the bytes, not on what the frames are used for.
 */
module Framing {

  predicate Positive(sizes: seq<nat>) {
    forall i :: 0 <= i < |sizes| ==> sizes[i] > 0
  }

  /**
   * The trigger position of frame `k` among `n` triggers, `k mod n`, taken
   * by subtracting whole rounds (SlotIsMod).
   */
  function Slot(k: nat, n: nat): (i: nat)
    requires n > 0
    ensures i < n
  {
    if k < n then k else Slot(k - n, n)
  }

  /** Where frame `k` starts: the sizes of frames `0 .. k-1` added up, round robin. */
  function Offset(sizes: seq<nat>, k: nat): nat
    requires |sizes| > 0
  {
    if k == 0 then 0 else Offset(sizes, k - 1) + sizes[Slot(k - 1, |sizes|)]
  }

  /** The bytes of one round: every trigger's frame once. */
  function Sum(sizes: seq<nat>): nat {
    if |sizes| == 0 then 0 else Sum(sizes[..|sizes| - 1]) + sizes[|sizes| - 1]
  }

  /** The stream slice of frame `k`. */
  function FrameBytes(sizes: seq<nat>, stream: seq<bv8>, k: nat): (r: seq<bv8>)
    requires |sizes| > 0 && Offset(sizes, k + 1) <= |stream|
    ensures |r| == sizes[Slot(k, |sizes|)]
  {
    stream[Offset(sizes, k)..Offset(sizes, k + 1)]
  }

  /** The frames from frame `k` on, up to the first one the stream does not hold completely. */
  function FramesFrom(sizes: seq<nat>, stream: seq<bv8>, k: nat): seq<seq<bv8>>
    requires |sizes| > 0 && Positive(sizes)
    decreases var o := Offset(sizes, k); if o <= |stream| then |stream| - o else 0
  {
    if Offset(sizes, k + 1) <= |stream| then
      assert sizes[Slot(k, |sizes|)] > 0;
      [FrameBytes(sizes, stream, k)] + FramesFrom(sizes, stream, k + 1)
    else []
  }

  /** All complete frames of the stream. */
  function Frames(sizes: seq<nat>, stream: seq<bv8>): seq<seq<bv8>>
    requires |sizes| > 0 && Positive(sizes)
  {
    FramesFrom(sizes, stream, 0)
  }

  /** The first `n` frames, all of which the stream holds. */
  function FramesTo(sizes: seq<nat>, stream: seq<bv8>, n: nat): (r: seq<seq<bv8>>)
    requires |sizes| > 0 && Offset(sizes, n) <= |stream|
    ensures |r| == n
  {
    if n == 0 then [] else FramesTo(sizes, stream, n - 1) + [FrameBytes(sizes, stream, n - 1)]
  }

  /** Every frame advances the stream position by at least one byte. */
  lemma {:induction false} OffsetGrows(sizes: seq<nat>, j: nat, k: nat)
    requires |sizes| > 0 && Positive(sizes) && j <= k
    ensures Offset(sizes, j) + (k - j) <= Offset(sizes, k)
    decreases k - j
  {
    if j < k {
      OffsetGrows(sizes, j, k - 1);
      assert sizes[Slot(k - 1, |sizes|)] > 0;
    }
  }

  /** The number of complete frames in a stream of `len` bytes is determined by `len`. */
  lemma FrameCountUnique(sizes: seq<nat>, len: nat, c: nat, d: nat)
    requires |sizes| > 0 && Positive(sizes)
    requires Offset(sizes, c) <= len < Offset(sizes, c + 1)
    requires Offset(sizes, d) <= len < Offset(sizes, d + 1)
    ensures c == d
  {
    if c < d {
      OffsetGrows(sizes, c + 1, d);
    } else if d < c {
      OffsetGrows(sizes, d + 1, c);
    }
  }

  /**
   * Reading frame `k` (`len` bytes) with a reader at `pos` in a stream of `n`
   * bytes, where `pos` is the start of frame `k` unless an earlier short read
   * already drained the stream: the read succeeds exactly when frame `k` is
   * complete, and then it covers exactly frame `k`.
   */
  lemma ReadFrame(sizes: seq<nat>, len: nat, k: nat, pos: nat, n: nat)
    requires |sizes| > 0 && Positive(sizes) && len == sizes[Slot(k, |sizes|)]
    requires Offset(sizes, k) <= n
    requires pos == Offset(sizes, k) || (pos == n && n < Offset(sizes, k + 1))
    ensures len > 0
    ensures pos + len <= n <==> Offset(sizes, k + 1) <= n
    ensures pos + len <= n ==> pos == Offset(sizes, k) && pos + len == Offset(sizes, k + 1)
    ensures n < pos + len ==> n < Offset(sizes, k + 1)
  {
    assert Offset(sizes, k + 1) == Offset(sizes, k) + len;
  }

  /**
   * From frame `k` on, the frames stop exactly at the first one that does not
   * fit: no partial frame is taken and no complete one is skipped.
   */
  lemma {:induction false} FramesFromLength(sizes: seq<nat>, stream: seq<bv8>, k: nat)
    requires |sizes| > 0 && Positive(sizes)
    requires Offset(sizes, k) <= |stream|
    ensures var c := |FramesFrom(sizes, stream, k)|;
            Offset(sizes, k + c) <= |stream| < Offset(sizes, k + c + 1)
    decreases |stream| - Offset(sizes, k)
  {
    if Offset(sizes, k + 1) <= |stream| {
      assert sizes[Slot(k, |sizes|)] > 0;
      FramesFromLength(sizes, stream, k + 1);
      var c := |FramesFrom(sizes, stream, k + 1)|;
      assert |FramesFrom(sizes, stream, k)| == c + 1;
      assert k + 1 + c == k + (c + 1);
    }
  }

  /** From frame `k` on, the `j`-th frame taken is the slice of frame `k + j`. */
  lemma {:induction false} FramesFromAt(sizes: seq<nat>, stream: seq<bv8>, k: nat, j: nat)
    requires |sizes| > 0 && Positive(sizes)
    requires j < |FramesFrom(sizes, stream, k)|
    ensures Offset(sizes, k + j + 1) <= |stream|
    ensures FramesFrom(sizes, stream, k)[j] == FrameBytes(sizes, stream, k + j)
    decreases j
  {
    assert Offset(sizes, k + 1) <= |stream|;
    if j > 0 {
      FramesFromAt(sizes, stream, k + 1, j - 1);
      assert k + 1 + (j - 1) == k + j;
    }
  }

  /** `c` frames are taken exactly when frames `0 .. c-1` fit in the stream and frame `c` does not. */
  lemma FramesCount(sizes: seq<nat>, stream: seq<bv8>, c: nat)
    requires |sizes| > 0 && Positive(sizes)
    ensures |Frames(sizes, stream)| == c <==> Offset(sizes, c) <= |stream| < Offset(sizes, c + 1)
  {
    FramesFromLength(sizes, stream, 0);
    if Offset(sizes, c) <= |stream| < Offset(sizes, c + 1) {
      FrameCountUnique(sizes, |stream|, |Frames(sizes, stream)|, c);
    }
  }

  /** A longer stream only adds frames: those already complete do not change. */
  lemma {:induction false} FramesFromPrefix(sizes: seq<nat>, stream: seq<bv8>, more: seq<bv8>, k: nat)
    requires |sizes| > 0 && Positive(sizes)
    requires stream <= more
    ensures FramesFrom(sizes, stream, k) <= FramesFrom(sizes, more, k)
    decreases var o := Offset(sizes, k); if o <= |stream| then |stream| - o else 0
  {
    if Offset(sizes, k + 1) <= |stream| {
      assert sizes[Slot(k, |sizes|)] > 0;
      var lo, hi := Offset(sizes, k), Offset(sizes, k + 1);
      assert stream[lo..hi] == more[lo..hi];
      FramesFromPrefix(sizes, stream, more, k + 1);
    }
  }

  /** Taking one more complete frame moves it from the frames to come to the frames taken. */
  lemma FramesNext(sizes: seq<nat>, stream: seq<bv8>, k: nat)
    requires |sizes| > 0 && Positive(sizes)
    requires Offset(sizes, k + 1) <= |stream|
    ensures FramesTo(sizes, stream, k) + FramesFrom(sizes, stream, k) ==
            FramesTo(sizes, stream, k + 1) + FramesFrom(sizes, stream, k + 1)
  {
    var before := FramesTo(sizes, stream, k);
    var next := [FrameBytes(sizes, stream, k)];
    var rest := FramesFrom(sizes, stream, k + 1);
    assert FramesFrom(sizes, stream, k) == next + rest;
    assert before + (next + rest) == (before + next) + rest;
  }

  /**
   * With exactly `c` complete frames, the frames taken before any frame
   * `k <= c` followed by those from `k` on are the first `c` frames.
   */
  lemma {:induction false} FramesSplit(sizes: seq<nat>, stream: seq<bv8>, k: nat, c: nat)
    requires |sizes| > 0 && Positive(sizes)
    requires k <= c
    requires Offset(sizes, c) <= |stream| < Offset(sizes, c + 1)
    ensures Offset(sizes, k) <= |stream|
    ensures FramesTo(sizes, stream, c) == FramesTo(sizes, stream, k) + FramesFrom(sizes, stream, k)
    decreases c - k
  {
    if k == c {
      assert FramesFrom(sizes, stream, c) == [];
      assert FramesTo(sizes, stream, c) + [] == FramesTo(sizes, stream, c);
    } else {
      OffsetGrows(sizes, k + 1, c);
      assert Offset(sizes, k + 1) <= |stream|;
      FramesSplit(sizes, stream, k + 1, c);
      FramesNext(sizes, stream, k);
      OffsetGrows(sizes, k, k + 1);
    }
  }

  lemma MulAtLeast(a: int, n: int)
    requires a >= 1 && n > 0
    ensures a * n >= n
  {
  }

  /** Euclidean quotient and remainder are unique. */
  lemma DivModUnique(x: int, n: int, q: int, r: int)
    requires n > 0 && 0 <= r < n && x == q * n + r
    ensures x % n == r && x / n == q
  {
    var q', r' := x / n, x % n;
    assert x == q' * n + r';
    if q > q' {
      assert (q - q') * n == q * n - q' * n;
      MulAtLeast(q - q', n);
    } else if q < q' {
      assert (q' - q) * n == q' * n - q * n;
      MulAtLeast(q' - q, n);
    }
  }

  /** Slot is the remainder of Euclidean division. */
  lemma {:induction false} SlotIsMod(k: nat, n: nat)
    requires n > 0
    ensures Slot(k, n) == k % n
    decreases k
  {
    if k < n {
      DivModUnique(k, n, 0, k);
    } else {
      SlotIsMod(k - n, n);
      DivModUnique(k, n, (k - n) / n + 1, (k - n) % n);
    }
  }

  /** Within the first round, frame `i` starts after the frames of triggers `0 .. i-1`. */
  lemma {:induction false} OffsetFirstRound(sizes: seq<nat>, i: nat)
    requires 0 < |sizes| && i <= |sizes|
    ensures Offset(sizes, i) == Sum(sizes[..i])
    decreases i
  {
    if i > 0 {
      OffsetFirstRound(sizes, i - 1);
      assert sizes[..i][..i - 1] == sizes[..i - 1];
    }
  }

  /** One more round moves every frame's start by the size of a round. */
  lemma {:induction false} OffsetShift(sizes: seq<nat>, j: nat)
    requires 0 < |sizes|
    ensures Offset(sizes, j + |sizes|) == Offset(sizes, j) + Sum(sizes)
    decreases j
  {
    var n := |sizes|;
    if j == 0 {
      OffsetFirstRound(sizes, n);
      assert sizes[..n] == sizes;
    } else {
      OffsetShift(sizes, j - 1);
      assert Slot(j - 1 + n, n) == Slot(j - 1, n);
      assert j + n - 1 == j - 1 + n;
    }
  }

  /** Frame `i` of round `r` starts `r` rounds after frame `i` of round 0. */
  lemma {:induction false} OffsetRounds(sizes: seq<nat>, r: nat, i: nat)
    requires 0 < |sizes|
    ensures Offset(sizes, r * |sizes| + i) == r * Sum(sizes) + Offset(sizes, i)
    decreases r
  {
    if r > 0 {
      var n := |sizes|;
      OffsetRounds(sizes, r - 1, i);
      OffsetShift(sizes, (r - 1) * n + i);
      assert (r - 1) * n + i + n == r * n + i;
      assert (r - 1) * Sum(sizes) + Sum(sizes) == r * Sum(sizes);
    }
  }

  /** Frame `r * N + i` is trigger `i`'s, and it starts `r` rounds plus triggers `0 .. i-1` in. */
  lemma RoundStart(sizes: seq<nat>, r: nat, i: nat)
    requires i < |sizes|
    ensures (r * |sizes| + i) % |sizes| == i
    ensures Offset(sizes, r * |sizes| + i) == r * Sum(sizes) + Sum(sizes[..i])
  {
    OffsetRounds(sizes, r, i);
    OffsetFirstRound(sizes, i);
    DivModUnique(r * |sizes| + i, |sizes|, r, i);
  }

  /** A stream that ends exactly where frame `c` would start holds exactly `c` frames. */
  lemma FramesExact(sizes: seq<nat>, stream: seq<bv8>, c: nat)
    requires |sizes| > 0 && Positive(sizes)
    requires |stream| == Offset(sizes, c)
    ensures |Frames(sizes, stream)| == c
  {
    assert sizes[Slot(c, |sizes|)] > 0;
    FramesCount(sizes, stream, c);
  }

  /** A stream of `rounds` complete rounds holds exactly `rounds` frames per trigger. */
  lemma FramesRounds(sizes: seq<nat>, stream: seq<bv8>, rounds: nat)
    requires |sizes| > 0 && Positive(sizes)
    requires |stream| == rounds * Sum(sizes)
    ensures |Frames(sizes, stream)| == rounds * |sizes|
  {
    OffsetRounds(sizes, rounds, 0);
    FramesExact(sizes, stream, rounds * |sizes|);
  }

  lemma IndexInRounds(r: nat, rounds: nat, n: nat, i: nat)
    requires r < rounds && i < n
    ensures r * n + i < rounds * n
  {
    MulAtLeast(rounds - r, n);
    assert (rounds - r) * n == rounds * n - r * n;
  }
}
