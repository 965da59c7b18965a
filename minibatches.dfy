/** `random_mini_batches`: shuffle the columns of X and Y with one
    permutation, then cut them into consecutive batches of `size`
    columns, the last one possibly shorter. The permutation that
    `np.random.permutation` would draw is a parameter. Matrices are held
    as sequences of columns. */
module MiniBatches {

  datatype MiniBatch<C> = MiniBatch(x: seq<C>, y: seq<C>)

  /** `X[:, permutation]`. */
  function Shuffle<C>(cols: seq<C>, perm: seq<nat>): seq<C>
    requires forall i :: 0 <= i < |perm| ==> perm[i] < |cols|
  {
    seq(|perm|, i requires 0 <= i < |perm| => cols[perm[i]])
  }

  /** Number of batches: the complete ones plus one for a non-empty remainder. */
  function BatchCount(m: nat, size: nat): nat
    requires size > 0
  {
    m / size + (if m % size != 0 then 1 else 0)
  }

  /** Consecutive pieces of `size` elements; the last piece holds what is left. */
  function Chunks<T>(s: seq<T>, size: nat): seq<seq<T>>
    requires size > 0
    decreases |s|
  {
    if |s| == 0 then []
    else if |s| <= size then [s]
    else [s[..size]] + Chunks(s[size..], size)
  }

  function Flatten<T>(ss: seq<seq<T>>): seq<T> {
    if |ss| == 0 then [] else ss[0] + Flatten(ss[1..])
  }

  function XParts<C>(batches: seq<MiniBatch<C>>): seq<seq<C>> {
    seq(|batches|, b requires 0 <= b < |batches| => batches[b].x)
  }

  function YParts<C>(batches: seq<MiniBatch<C>>): seq<seq<C>> {
    seq(|batches|, b requires 0 <= b < |batches| => batches[b].y)
  }

  lemma ChunksStep<T>(s: seq<T>, size: nat)
    requires 0 < size <= |s|
    ensures Chunks(s, size) == [s[..size]] + Chunks(s[size..], size)
  {
    if |s| == size {
      assert s[..size] == s && s[size..] == [];
    }
  }

  lemma NextStart(k: nat, size: nat)
    ensures (k + 1) * size == k * size + size
  {
  }

  lemma Remainder(m: nat, size: nat)
    requires size > 0
    ensures m == (m / size) * size + m % size
  {
  }

  lemma CompleteBatchFits(k: nat, size: nat, m: nat)
    requires size > 0 && k < m / size
    ensures k * size + size <= m
  {
    assert k + 1 <= m / size;
    assert (k + 1) * size <= (m / size) * size;
  }

  /** One complete batch taken off the front of what is left. */
  lemma TakeBatch<T>(s: seq<T>, lo: nat, size: nat)
    requires size > 0 && lo + size <= |s|
    ensures Chunks(s[lo..], size) == [s[lo .. lo + size]] + Chunks(s[lo + size ..], size)
  {
    ChunksStep(s[lo..], size);
    assert s[lo..][..size] == s[lo .. lo + size];
    assert s[lo..][size..] == s[lo + size ..];
  }

  lemma PartsAppend<C>(batches: seq<MiniBatch<C>>, batch: MiniBatch<C>)
    ensures XParts(batches + [batch]) == XParts(batches) + [batch.x]
    ensures YParts(batches + [batch]) == YParts(batches) + [batch.y]
  {
  }

  method RandomMiniBatches<C>(X: seq<C>, Y: seq<C>, perm: seq<nat>, size: nat) returns (batches: seq<MiniBatch<C>>)
    requires size > 0
    requires |perm| == |X|
    requires forall i :: 0 <= i < |perm| ==> perm[i] < |X| && perm[i] < |Y|
    ensures |batches| == BatchCount(|X|, size)
    ensures XParts(batches) == Chunks(Shuffle(X, perm), size)
    ensures YParts(batches) == Chunks(Shuffle(Y, perm), size)
  {
    var m := |X|;
    var shuffledX := Shuffle(X, perm);
    var shuffledY := Shuffle(Y, perm);
    var complete := m / size;
    batches := [];
    var lo := 0;
    for k := 0 to complete
      invariant lo == k * size && lo <= m
      invariant |batches| == k
      invariant XParts(batches) + Chunks(shuffledX[lo..], size) == Chunks(shuffledX, size)
      invariant YParts(batches) + Chunks(shuffledY[lo..], size) == Chunks(shuffledY, size)
    {
      CompleteBatchFits(k, size, m);
      TakeBatch(shuffledX, lo, size);
      TakeBatch(shuffledY, lo, size);
      var batch := MiniBatch(shuffledX[k * size .. k * size + size], shuffledY[k * size .. k * size + size]);
      PartsAppend(batches, batch);
      batches := batches + [batch];
      NextStart(k, size);
      lo := lo + size;
    }
    Remainder(m, size);
    if m % size != 0 {
      var batch := MiniBatch(shuffledX[lo .. m], shuffledY[lo .. m]);
      assert shuffledX[lo..] == batch.x && shuffledY[lo..] == batch.y;
      PartsAppend(batches, batch);
      batches := batches + [batch];
    } else {
      assert |shuffledX[lo..]| == 0 && |shuffledY[lo..]| == 0;
    }
  }

  /** The pieces put back together give the whole sequence. */
  lemma {:induction false} ChunksFlatten<T>(s: seq<T>, size: nat)
    requires size > 0
    ensures Flatten(Chunks(s, size)) == s
    decreases |s|
  {
    if |s| > size {
      ChunksFlatten(s[size..], size);
      assert s == s[..size] + s[size..];
    } else if |s| > 0 {
      assert Flatten(Chunks(s, size)) == s + Flatten([]);
    }
  }

  /** Every piece but the last has exactly `size` elements, the last has
      between one and `size`, and only the empty sequence has no pieces. */
  lemma {:induction false} ChunkSizes<T>(s: seq<T>, size: nat)
    requires size > 0
    ensures var c := Chunks(s, size);
      && (|c| == 0 <==> |s| == 0)
      && (forall b :: 0 <= b < |c| - 1 ==> |c[b]| == size)
      && (|c| > 0 ==> 0 < |c[|c| - 1]| <= size)
    decreases |s|
  {
    if |s| > size {
      ChunkSizes(s[size..], size);
    }
  }

  /** `piece` is the columns of `cols` at positions `idx`. */
  ghost predicate TakesColumns<C>(piece: seq<C>, idx: seq<nat>, cols: seq<C>) {
    |piece| == |idx| && forall i :: 0 <= i < |idx| ==> idx[i] < |cols| && piece[i] == cols[idx[i]]
  }

  /** Cutting a shuffled sequence is shuffling by the cut permutation: the
      `b`-th piece of the shuffled columns is the columns at the `b`-th
      piece of the permutation. Applied to X and to Y with one
      permutation, their batches take the same columns. */
  lemma {:induction false} ChunksOfShuffle<C>(cols: seq<C>, perm: seq<nat>, size: nat)
    requires size > 0
    requires forall i :: 0 <= i < |perm| ==> perm[i] < |cols|
    ensures var cs, ps := Chunks(Shuffle(cols, perm), size), Chunks(perm, size);
      |cs| == |ps| && forall b :: 0 <= b < |cs| ==> TakesColumns(cs[b], ps[b], cols)
    decreases |perm|
  {
    var sh := Shuffle(cols, perm);
    if |perm| > size {
      ChunksOfShuffle(cols, perm[size..], size);
      assert sh[size..] == Shuffle(cols, perm[size..]);
      var cs, ps := Chunks(sh, size), Chunks(perm, size);
      assert cs[0] == sh[..size] && ps[0] == perm[..size];
      assert cs[1..] == Chunks(sh[size..], size) && ps[1..] == Chunks(perm[size..], size);
    }
  }


  /** What `np.random.permutation(m)` draws: each of `0 .. m-1` once. */
  predicate IsPermutation(perm: seq<nat>, m: nat) {
    && |perm| == m
    && (forall i :: 0 <= i < |perm| ==> perm[i] < m)
    && (forall i, j :: 0 <= i < j < |perm| ==> perm[i] != perm[j])
  }

  /** The indices below `m`. */
  function Below(m: nat): set<nat> {
    if m == 0 then {} else Below(m - 1) + {m - 1}
  }

  function Values(perm: seq<nat>): set<nat> {
    set i | 0 <= i < |perm| :: perm[i]
  }

  lemma {:induction false} BelowSize(m: nat)
    ensures |Below(m)| == m
    ensures forall i: nat :: i in Below(m) <==> i < m
  {
    if m > 0 {
      BelowSize(m - 1);
    }
  }

  lemma {:induction false} DistinctValuesSize(perm: seq<nat>)
    requires forall i, j :: 0 <= i < j < |perm| ==> perm[i] != perm[j]
    ensures |Values(perm)| == |perm|
  {
    if |perm| > 0 {
      var init := perm[..|perm| - 1];
      DistinctValuesSize(init);
      assert Values(perm) == Values(init) + {perm[|perm| - 1]};
      assert perm[|perm| - 1] !in Values(init);
    }
  }

  /** A subset is no larger, and a subset of the same size is the whole set. */
  lemma {:induction false} SubsetSize(a: set<nat>, b: set<nat>)
    requires a <= b
    ensures |a| <= |b|
    ensures |a| == |b| ==> a == b
    decreases a
  {
    if a == {} {
      if |b| == 0 {
        assert b == {};
      }
    } else {
      var x :| x in a;
      SubsetSize(a - {x}, b - {x});
      if |a| == |b| {
        assert a == (a - {x}) + {x} && b == (b - {x}) + {x};
      }
    }
  }

  /** Column `i` of `cols` sits at some position `j` of the shuffled sequence. */
  ghost predicate ColumnDrawn<C>(cols: seq<C>, perm: seq<nat>, i: int)
    requires forall k :: 0 <= k < |perm| ==> perm[k] < |cols|
    requires 0 <= i < |cols|
  {
    exists j :: 0 <= j < |perm| && perm[j] == i && Shuffle(cols, perm)[j] == cols[i]
  }

  /** A permutation draws every index: each column of `cols` sits at
      exactly one position of the shuffled sequence. */
  lemma PermutationCoversEveryColumn<C>(cols: seq<C>, perm: seq<nat>)
    requires IsPermutation(perm, |cols|)
    ensures |Shuffle(cols, perm)| == |cols|
    ensures forall i :: 0 <= i < |cols| ==> ColumnDrawn(cols, perm, i)
    ensures forall j, j' :: 0 <= j < j' < |perm| ==> perm[j] != perm[j']
  {
    var m := |cols|;
    BelowSize(m);
    DistinctValuesSize(perm);
    SubsetSize(Values(perm), Below(m));
    forall i | 0 <= i < |cols|
      ensures ColumnDrawn(cols, perm, i)
    {
      assert (i as nat) in Values(perm);
      var j :| 0 <= j < |perm| && perm[j] == i;
      assert Shuffle(cols, perm)[j] == cols[i];
    }
  }

  /** What `random_mini_batches` returns, read back: the X batches
      concatenate to the shuffled X, and batch `b` of X and batch `b` of Y
      are the columns at the same positions, piece `b` of the permutation. */
  lemma BatchesPartitionTheShuffle<C>(X: seq<C>, Y: seq<C>, perm: seq<nat>, size: nat, batches: seq<MiniBatch<C>>)
    requires size > 0 && |perm| == |X|
    requires forall i :: 0 <= i < |perm| ==> perm[i] < |X| && perm[i] < |Y|
    requires XParts(batches) == Chunks(Shuffle(X, perm), size)
    requires YParts(batches) == Chunks(Shuffle(Y, perm), size)
    ensures Flatten(XParts(batches)) == Shuffle(X, perm)
    ensures Flatten(YParts(batches)) == Shuffle(Y, perm)
    ensures |Chunks(perm, size)| == |batches|
    ensures forall b :: 0 <= b < |batches| ==>
      TakesColumns(batches[b].x, Chunks(perm, size)[b], X) && TakesColumns(batches[b].y, Chunks(perm, size)[b], Y)
  {
    ChunksFlatten(Shuffle(X, perm), size);
    ChunksFlatten(Shuffle(Y, perm), size);
    ChunksOfShuffle(X, perm, size);
    ChunksOfShuffle(Y, perm, size);
    forall b | 0 <= b < |batches|
      ensures TakesColumns(batches[b].x, Chunks(perm, size)[b], X) && TakesColumns(batches[b].y, Chunks(perm, size)[b], Y)
    {
      assert batches[b].x == XParts(batches)[b] && batches[b].y == YParts(batches)[b];
    }
  }
}
