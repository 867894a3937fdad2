/**
  The binary tree of chunks, with any kind of node: `Subtree` is the recursive tree of the BLAKE3
  paper (section 2.1), `Stack` the state of the incremental algorithm (section 5.1.2), which keeps
  one perfect subtree per set bit of the number of finished chunks.
*/
module ChunkTree {
  import opened Bytes

  /** How nodes are made: a leaf per chunk, a parent from two chaining values. */
  datatype Nodes<!N, !V> = Nodes(leaf: nat -> N, cv: N -> V, parent: (V, V) -> N)

  /** The largest power of two not above n. */
  function TopPow(n: nat): (p: nat)
    requires n >= 1
    ensures p <= n < 2 * p
  {
    if n == 1 then 1 else 2 * TopPow(n / 2)
  }

  /** The tree over n chunks from chunk lo on: the left side is the largest power of two below n. */
  function Subtree<N, V>(t: Nodes<N, V>, lo: nat, n: nat): N
    requires n >= 1
    decreases n
  {
    if n == 1 then t.leaf(lo)
    else
      var l := TopPow(n - 1);
      t.parent(t.cv(Subtree(t, lo, l)), t.cv(Subtree(t, lo + l, n - l)))
  }

  function SubtreeCv<N, V>(t: Nodes<N, V>, lo: nat, n: nat): V
    requires n >= 1
  {
    t.cv(Subtree(t, lo, n))
  }

  /** The chaining values of the perfect subtrees that cover k chunks from lo on, largest first. */
  function Stack<N, V>(t: Nodes<N, V>, lo: nat, k: nat): seq<V>
    decreases k
  {
    if k == 0 then []
    else [SubtreeCv(t, lo, TopPow(k))] + Stack(t, lo + TopPow(k), k - TopPow(k))
  }

  /** Folding the stack onto the node of the last chunk, innermost entry first. */
  function FoldStack<N, V>(t: Nodes<N, V>, stack: seq<V>, last: N): N {
    if stack == [] then last
    else t.parent(stack[0], t.cv(FoldStack(t, stack[1..], last)))
  }

  // ----- powers of two

  lemma {:induction false} TopPowIsPow2(n: nat) returns (j: nat)
    requires n >= 1
    ensures TopPow(n) == Pow2(j)
  {
    if n == 1 {
      j := 0;
    } else {
      var i := TopPowIsPow2(n / 2);
      j := i + 1;
    }
  }

  lemma {:induction false} TopPowUnique(n: nat, j: nat)
    requires Pow2(j) <= n < 2 * Pow2(j)
    ensures TopPow(n) == Pow2(j)
  {
    if j == 0 {
    } else {
      TopPowUnique(n / 2, j - 1);
    }
  }

  /** The left subtree's size is the only power of two that is below n and at least half of it. */
  lemma LeftSizeIsTheSplitOfThePaper(n: nat, j: nat)
    requires n >= 2
    ensures TopPow(n - 1) == Pow2(j) <==> Pow2(j) < n <= 2 * Pow2(j)
  {
    if Pow2(j) < n <= 2 * Pow2(j) {
      TopPowUnique(n - 1, j);
    }
  }

  /** The lowest set bit of k, as a power of two. */
  function LowBit(k: nat): (q: nat)
    requires k >= 1
    ensures 1 <= q <= k
  {
    if k % 2 == 1 then 1 else 2 * LowBit(k / 2)
  }

  /** Clearing the top bit keeps the lowest bit. */
  lemma {:induction false} LowBitWithoutTop(k: nat)
    requires k >= 1
    ensures k == TopPow(k) ==> LowBit(k) == k
    ensures k > TopPow(k) ==> LowBit(k - TopPow(k)) == LowBit(k)
  {
    if k > 1 {
      LowBitWithoutTop(k / 2);
      var r := k - TopPow(k);
      assert r % 2 == k % 2 && r / 2 == k / 2 - TopPow(k / 2);
    }
  }

  /** Clearing the lowest bit keeps the top bit. */
  lemma {:induction false} TopWithoutLowBit(k: nat)
    requires k >= 1 && k > TopPow(k)
    ensures k > LowBit(k) && TopPow(k - LowBit(k)) == TopPow(k)
  {
    if k % 2 == 0 {
      TopWithoutLowBit(k / 2);
      var r := k - LowBit(k);
      assert r / 2 == k / 2 - LowBit(k / 2);
    }
  }

  /** a shifted left by j bits. */
  function Shl(a: nat, j: nat): (r: nat)
    ensures a <= r
  {
    if j == 0 then a else 2 * Shl(a, j - 1)
  }

  lemma {:induction false} ShlHalf(a: nat, j: nat)
    requires a % 2 == 0
    ensures Shl(a / 2, j + 1) == Shl(a, j)
  {
    if j == 0 {
    } else {
      ShlHalf(a, j - 1);
    }
  }

  lemma {:induction false} ShlPred(a: nat, j: nat)
    requires a >= 1
    ensures Shl(a - 1, j) == Shl(a, j) - Pow2(j)
  {
    if j == 0 {
    } else {
      ShlPred(a, j - 1);
    }
  }

  lemma {:induction false} ShlOdd(a: nat, j: nat)
    requires a % 2 == 1
    ensures Shl(a, j) >= 1 && LowBit(Shl(a, j)) == Pow2(j)
  {
    if j == 0 {
    } else {
      ShlOdd(a, j - 1);
    }
  }

  function PopCount(k: nat): nat {
    if k == 0 then 0 else k % 2 + PopCount(k / 2)
  }

  lemma {:induction false} PopCountTop(k: nat)
    requires k >= 1
    ensures PopCount(k) == 1 + PopCount(k - TopPow(k))
  {
    if k > 1 {
      PopCountTop(k / 2);
      var r := k - TopPow(k);
      assert r / 2 == k / 2 - TopPow(k / 2) && r % 2 == k % 2;
      assert r == 0 ==> PopCount(r / 2) == 0;
    }
  }

  // ----- the stack

  /** Before chunk k the stack holds one entry per set bit of k. */
  lemma {:induction false} StackHeight<N, V>(t: Nodes<N, V>, lo: nat, k: nat)
    ensures |Stack(t, lo, k)| == PopCount(k)
    decreases k
  {
    hide TopPow, SubtreeCv;
    if k == 0 {
    } else {
      PopCountTop(k);
      StackHeight(t, lo + TopPow(k), k - TopPow(k));
    }
  }

  /** The last entry of the stack is the subtree of the lowest set bit. */
  lemma {:induction false} StackLast<N, V>(t: Nodes<N, V>, lo: nat, k: nat)
    requires k >= 1
    ensures Stack(t, lo, k) == Stack(t, lo, k - LowBit(k)) + [SubtreeCv(t, lo + k - LowBit(k), LowBit(k))]
    decreases k
  {
    hide TopPow, LowBit, Subtree;
    LowBitWithoutTop(k);
    var p := TopPow(k);
    if k > p {
      TopWithoutLowBit(k);
      StackLast(t, lo + p, k - p);
    } else {
      assert Stack(t, lo + p, 0) == [];
    }
  }

  /** Two neighbouring perfect subtrees merge into the next larger perfect subtree. */
  lemma MergeStep<N, V>(t: Nodes<N, V>, lo: nat, j: nat)
    ensures SubtreeCv(t, lo, 2 * Pow2(j))
         == t.cv(t.parent(SubtreeCv(t, lo, Pow2(j)), SubtreeCv(t, lo + Pow2(j), Pow2(j))))
  {
    TopPowUnique(2 * Pow2(j) - 1, j);
  }

  lemma {:induction false} FoldStackPop<N, V>(t: Nodes<N, V>, stack: seq<V>, last: N)
    requires stack != []
    ensures FoldStack(t, stack, last)
         == FoldStack(t, stack[..|stack| - 1], t.parent(stack[|stack| - 1], t.cv(last)))
  {
    if |stack| > 1 {
      FoldStackPop(t, stack[1..], last);
      var rest := stack[..|stack| - 1];
      assert rest[0] == stack[0] && rest[1..] == stack[1..][..|stack[1..]| - 1];
    }
  }

  /** Folding the stack of k chunks onto chunk k gives the tree over k + 1 chunks. */
  lemma {:induction false} FoldStackIsTree<N, V>(t: Nodes<N, V>, lo: nat, k: nat)
    ensures FoldStack(t, Stack(t, lo, k), t.leaf(lo + k)) == Subtree(t, lo, k + 1)
    decreases k
  {
    hide TopPow;
    if k == 0 {
    } else {
      var p := TopPow(k);
      FoldStackIsTree(t, lo + p, k - p);
      assert lo + p + (k - p) == lo + k && k - p + 1 == k + 1 - p;
      assert Stack(t, lo, k)[1..] == Stack(t, lo + p, k - p);
    }
  }

  /** Merging after chunk k while the number of finished chunks is even; no pop finds the stack empty. */
  method PushChunk<N, V>(t: Nodes<N, V>, stack: seq<V>, chunkCv: V, k: nat) returns (stack': seq<V>)
    requires stack == Stack(t, 0, k)
    requires chunkCv == SubtreeCv(t, k, 1)
    ensures stack' == Stack(t, 0, k + 1)
  {
    hide Stack, Subtree, SubtreeCv, TopPow, LowBit;
    var cv := chunkCv;
    var total := k + 1;
    stack' := stack;
    ghost var j := 0;
    while total % 2 == 0
      invariant total >= 1 && Shl(total, j) == k + 1 >= Pow2(j)
      invariant cv == SubtreeCv(t, k + 1 - Pow2(j), Pow2(j))
      invariant stack' == Stack(t, 0, k + 1 - Pow2(j))
      decreases total
    {
      ghost var q := Pow2(j);
      ShlPred(total, j);
      ShlOdd(total - 1, j);
      StackLast(t, 0, k + 1 - q);
      MergeStep(t, k + 1 - 2 * q, j);
      cv := t.cv(t.parent(stack'[|stack'| - 1], cv));
      stack' := stack'[..|stack'| - 1];
      ShlHalf(total, j);
      total, j := total / 2, j + 1;
    }
    ShlOdd(total, j);
    StackLast(t, 0, k + 1);
    stack' := stack' + [cv];
  }
}
