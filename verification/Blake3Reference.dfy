/**
  The hash written down a second time, by recursion on the bytes and with every constant spelled out:
  blocks of 64 bytes and chunks of 1024 are cut off the front, a longer input is split at the largest
  power of two of chunks below its length, and the domain flags are 1 (first block), 2 (last block),
  4 (parent) and 8 (root), as in sections 2.1 to 2.6 of the BLAKE3 paper.
*/
module Blake3Reference {
  import opened Bytes
  import opened ChunkTree
  import opened Blake3

  // ----- the reference

  function ByteAt(b: bytes, k: nat): byte { if k < |b| then b[k] else 0 }

  /** The k-th little-endian word of a block, with zeros behind the bytes. */
  function WordAt(b: bytes, k: nat): word {
    ByteAt(b, 4 * k) + 0x100 * ByteAt(b, 4 * k + 1) + 0x1_0000 * ByteAt(b, 4 * k + 2)
    + 0x100_0000 * ByteAt(b, 4 * k + 3)
  }

  function BlockWords(b: bytes): Words16 { seq(16, k requires 0 <= k < 16 => WordAt(b, k)) }

  function First(flags: bv32): bv32 { flags | 1 }

  function Last(flags: bv32): bv32 { flags | 2 }

  function Parent(flags: bv32): bv32 { flags | 4 }

  function Root(flags: bv32): bv32 { flags | 8 }

  /** The blocks of a chunk from here on; all but the last are chained. */
  function ChunkFrom(m: Mode, cv: Words8, rest: bytes, counter: nat, first: bool): Output
    decreases |rest|
  {
    var flags := if first then First(m.flags) else m.flags;
    if |rest| <= 64 then Output(cv, BlockWords(rest), counter, |rest|, Last(flags))
    else
      var next: Words8 := m.compress(cv, BlockWords(rest[..64]), counter, 64, flags)[..8];
      ChunkFrom(m, next, rest[64..], counter, false)
  }

  /** 1024 times the largest power of two for which something is left on the right. */
  function LeftLength(length: nat): (r: nat)
    requires length > 1024
    ensures 1024 <= r < length <= 2 * r
  {
    if length <= 2048 then 1024 else 2 * LeftLength((length + 1) / 2)
  }

  function Tree(m: Mode, input: bytes, counter: nat): Output
    decreases |input|
  {
    if |input| <= 1024 then ChunkFrom(m, m.key, input, counter, true)
    else
      var l := LeftLength(|input|);
      var left := Tree(m, input[..l], counter);
      var right := Tree(m, input[l..], counter + l / 1024);
      var leftCv: Words8 := m.compress(left.cv, left.block, left.counter, left.blockLen, left.flags)[..8];
      var rightCv: Words8 := m.compress(right.cv, right.block, right.counter, right.blockLen, right.flags)[..8];
      Output(m.key, leftCv + rightCv, 0, 64, Parent(m.flags))
  }

  function Hash(m: Mode, input: bytes): Words8 {
    var o := Tree(m, input, 0);
    m.compress(o.cv, o.block, 0, o.blockLen, Root(o.flags))[..8]
  }

  /** The flags the program sets are these. */
  lemma SameFlags(f: bv32)
    ensures With(f, CHUNK_START) == First(f) && With(f, CHUNK_END) == Last(f)
    ensures With(f, PARENT) == Parent(f) && With(f, ROOT) == Root(f)
  {
  }

  // ----- chunks

  lemma BlockIsReference(b: bytes)
    requires |b| <= 64
    ensures PadBlock(b) == BlockWords(b)
  {
    var p := b + seq(64 - |b|, _ => 0);
    assert forall k | 0 <= k < 64 :: p[k] == ByteAt(b, k);
    forall k | 0 <= k < 16
      ensures BytesToWords16(p)[k] == WordAt(b, k)
    {
    }
  }

  /** Where block i starts, and whether it is the last. */
  lemma PieceAt(s: bytes, size: nat, i: nat)
    requires size > 0 && i < PieceCount(|s|, size)
    ensures i * size <= |s| && Piece(s, size, i) == s[i * size..Min(|s|, i * size + size)]
    ensures i + 1 == PieceCount(|s|, size) <==> |s| <= i * size + size
  {
    if |s| > 0 {
      var last := (|s| - 1) / size;
      assert last * size <= |s| - 1 < last * size + size by { DivMod(|s| - 1, size); }
      Scale(i, last, size);
    }
  }

  lemma DivMod(x: nat, size: nat)
    requires size > 0
    ensures x / size * size <= x < x / size * size + size
  {
  }

  lemma Scale(i: nat, last: nat, size: nat)
    ensures i <= last ==> i * size <= last * size
    ensures i < last ==> i * size + size <= last * size
  {
    if i < last {
      assert (i + 1) * size <= last * size;
    }
  }

  lemma {:induction false} ChunkIsReferenceFrom(m: Mode, chunk: bytes, counter: nat, i: nat)
    requires i < PieceCount(|chunk|, 64)
    ensures i * 64 <= |chunk|
    ensures ChunkFrom(m, BlockCv(m, chunk, counter, i), chunk[i * 64..], counter, i == 0)
         == ChunkNode(m, chunk, counter)
    decreases PieceCount(|chunk|, 64) - i
  {
    hide PadBlock, Piece, PieceCount, BlockWords, First, Last, With;
    SameFlags(m.flags);
    SameFlags(First(m.flags));
    PieceAt(chunk, 64, i);
    var rest := chunk[i * 64..];
    if i + 1 == PieceCount(|chunk|, 64) {
      assert Piece(chunk, 64, i) == rest;
      BlockIsReference(rest);
    } else {
      assert Piece(chunk, 64, i) == rest[..64] && chunk[(i + 1) * 64..] == rest[64..];
      BlockIsReference(rest[..64]);
      ChunkIsReferenceFrom(m, chunk, counter, i + 1);
    }
  }

  lemma ChunkIsReference(m: Mode, chunk: bytes, counter: nat)
    ensures ChunkNode(m, chunk, counter) == ChunkFrom(m, m.key, chunk, counter, true)
  {
    ChunkIsReferenceFrom(m, chunk, counter, 0);
    assert chunk[0..] == chunk;
  }

  // ----- the tree

  /** The n chunks from chunk lo on. */
  function Part(input: bytes, lo: nat, n: nat): bytes {
    input[Min(|input|, 1024 * lo)..Min(|input|, 1024 * (lo + n))]
  }

  lemma {:induction false} LeftIsPow2(length: nat) returns (j: nat)
    requires length > 1024
    ensures LeftLength(length) == 1024 * Pow2(j)
  {
    if length <= 2048 {
      j := 0;
    } else {
      var i := LeftIsPow2((length + 1) / 2);
      j := i + 1;
    }
  }

  /** Splitting by bytes is splitting by chunks. */
  lemma LeftIsSplit(length: nat, n: nat)
    requires n >= 2 && 1024 * (n - 1) < length <= 1024 * n
    ensures LeftLength(length) == 1024 * TopPow(n - 1)
  {
    hide Pow2, TopPow;
    var j := LeftIsPow2(length);
    LeftSizeIsTheSplitOfThePaper(n, j);
  }

  lemma PartSizes(input: bytes, lo: nat, n: nat)
    requires n >= 1 && lo + n <= PieceCount(|input|, 1024)
    ensures n >= 2 ==> 1024 * (n - 1) < |Part(input, lo, n)|
    ensures |Part(input, lo, n)| <= 1024 * n
    ensures n == 1 ==> Part(input, lo, n) == Piece(input, 1024, lo)
  {
    PieceAt(input, 1024, lo);
    PieceAt(input, 1024, lo + n - 1);
  }

  lemma PartSplit(input: bytes, lo: nat, n: nat, l: nat)
    requires 1 <= l < n && lo + n <= PieceCount(|input|, 1024)
    ensures 1024 * l <= |Part(input, lo, n)|
    ensures Part(input, lo, n)[..1024 * l] == Part(input, lo, l)
    ensures Part(input, lo, n)[1024 * l..] == Part(input, lo + l, n - l)
  {
    PartSizes(input, lo, n);
    assert 1024 * (lo + l) <= |input| by { PieceAt(input, 1024, lo + l); }
  }

  lemma {:induction false} SubtreeIsReference(m: Mode, input: bytes, lo: nat, n: nat)
    requires n >= 1 && lo + n <= PieceCount(|input|, 1024)
    ensures Subtree(TreeNodes(m, input), lo, n) == Tree(m, Part(input, lo, n), lo)
    decreases n
  {
    hide ChunkNode, ChunkFrom, Piece, PieceCount, Part, TopPow, Tree, ParentOutput, ChainingValue;
    PartSizes(input, lo, n);
    var part := Part(input, lo, n);
    if n == 1 {
      ChunkIsReference(m, part, lo);
      ReferenceLeaf(m, part, lo);
    } else {
      var l := TopPow(n - 1);
      LeftIsSplit(|part|, n);
      PartSplit(input, lo, n, l);
      SubtreeIsReference(m, input, lo, l);
      SubtreeIsReference(m, input, lo + l, n - l);
      ReferenceParent(m, part, lo, l);
    }
  }

  lemma ReferenceLeaf(m: Mode, part: bytes, lo: nat)
    requires |part| <= 1024
    ensures Tree(m, part, lo) == ChunkFrom(m, m.key, part, lo, true)
  {
    hide ChunkFrom;
  }

  lemma ReferenceParent(m: Mode, part: bytes, lo: nat, l: nat)
    requires |part| > 1024 && LeftLength(|part|) == 1024 * l
    ensures var (left, right) := (Tree(m, part[..1024 * l], lo), Tree(m, part[1024 * l..], lo + l));
            Tree(m, part, lo) == ParentOutput(m, ChainingValue(m, left), ChainingValue(m, right))
  {
    hide ChunkFrom, LeftLength, Parent, With;
    SameFlags(m.flags);
  }

  /** The tree over the chunks, and so the incremental hash, is the reference hash, for every mode and input. */
  lemma TreeIsReference(m: Mode, input: bytes)
    ensures TreeRoot(m, input) == Hash(m, input)
  {
    hide Tree, Subtree, Root, With;
    SameFlags(Tree(m, input, 0).flags);
    var n := PieceCount(|input|, 1024);
    SubtreeIsReference(m, input, 0, n);
    PieceAt(input, 1024, n - 1);
    assert Part(input, 0, n) == input;
  }

  // ----- what the flags keep apart

  /** A mode has a flag of its own, beside those of the nodes. */
  predicate OwnFlag(m: Mode) { m.flags & 15 == 0 }

  /** Which of the flags 1, 2, 4 and 8 are set. */
  function Low(flags: bv32): bv32 { flags & 15 }

  lemma FlagBits(f: bv32)
    requires f & 15 == 0
    ensures Low(Last(First(f))) == 3 && Low(Last(f)) == 2 && Low(Parent(f)) == 4
    ensures Root(Last(First(f))) == f | 11
  {
  }

  lemma {:induction false} ChunkFlags(m: Mode, cv: Words8, rest: bytes, counter: nat, first: bool)
    ensures var o := ChunkFrom(m, cv, rest, counter, first);
            o.counter == counter && o.flags == Last(if first && |rest| <= 64 then First(m.flags) else m.flags)
    decreases |rest|
  {
    hide BlockWords, First, Last;
    if |rest| <= 64 {
    } else {
      var flags := if first then First(m.flags) else m.flags;
      ChunkFlags(m, m.compress(cv, BlockWords(rest[..64]), counter, 64, flags)[..8], rest[64..], counter, false);
    }
  }

  /** Of the flags 1, 2, 4 and 8 a chunk's last block carries 2, and 1 if it is also the first; a parent carries 4. */
  lemma NodeFlags(m: Mode, input: bytes, counter: nat)
    requires OwnFlag(m)
    ensures var o := Tree(m, input, counter);
            if |input| > 1024 then Low(o.flags) == 4 && o.cv == m.key && o.counter == 0 && o.blockLen == 64
            else o.counter == counter && Low(o.flags) == if |input| <= 64 then 3 else 2
  {
    hide ChunkFrom, First, Last, Parent, Low;
    FlagBits(m.flags);
    if |input| <= 1024 {
      ChunkFlags(m, m.key, input, counter, true);
    }
  }

  /** An input of one block is one compression. */
  lemma OneBlock(m: Mode, input: bytes)
    requires OwnFlag(m) && |input| <= 64
    ensures TreeRoot(m, input) == m.compress(m.key, BlockWords(input), 0, |input|, m.flags | 11)[..8]
  {
    hide TreeRoot, BlockWords, First, Last, Root, Low;
    TreeIsReference(m, input);
    FlagBits(m.flags);
  }

  // ----- the constants of the derivation

  /** The start values are the first 32 bits behind the point of the square roots of the first eight primes. */
  lemma StartValues(i: nat)
    requires i < 8
    ensures var p := [2, 3, 5, 7, 11, 13, 17, 19][i];
            var w: nat := [1, 1, 2, 2, 3, 3, 4, 4][i] * 0x1_0000_0000 + IV[i] as int;
            w * w <= p * 0x1_0000_0000 * 0x1_0000_0000 < (w + 1) * (w + 1)
  {
  }

  /** The whole derivation, spelled out: the context under the flag 32, its hash as key of the material under 64. */
  lemma DerivationIsReference(compress: Compress, context: bytes, material: bytes)
    ensures var contextRoot := TreeRoot(Mode(compress, IV, DERIVE_KEY_CONTEXT), context);
            var reference := Hash(Mode(compress, Hash(Mode(compress, IV, 32), context), 64), material);
            TreeRoot(Mode(compress, contextRoot, DERIVE_KEY_MATERIAL), material) == reference
  {
    hide Hash, TreeRoot;
    TreeIsReference(Mode(compress, IV, 32), context);
    TreeIsReference(Mode(compress, Hash(Mode(compress, IV, 32), context), 64), material);
  }
}
