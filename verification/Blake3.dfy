/**
  BLAKE3 in derive-key mode. `HashMode` is the incremental algorithm: a stack of chaining values that
  is merged while the number of finished chunks is even. `TreeRoot` is the recursive tree of the
  BLAKE3 paper, section 2.1. The compression function is a parameter.
*/
module Blake3 {
  import opened Bytes
  import opened ChunkTree

  type word = w: int | 0 <= w < 0x1_0000_0000
  type Words8 = s: seq<word> | |s| == 8 witness [0, 0, 0, 0, 0, 0, 0, 0]
  type Words16 = s: seq<word> | |s| == 16 witness [0, 0, 0, 0, 0, 0, 0, 0, 0, 0, 0, 0, 0, 0, 0, 0]
  type Compress = (Words8, Words16, nat, nat, bv32) -> Words16

  const CHUNK_START: bv32 := 1
  const CHUNK_END: bv32 := 2
  const PARENT: bv32 := 4
  const ROOT: bv32 := 8
  const DERIVE_KEY_CONTEXT: bv32 := 32
  const DERIVE_KEY_MATERIAL: bv32 := 64
  const BLOCK_LEN := 64
  const CHUNK_LEN := 1024
  const IV: Words8 := [
    0x6A09E667, 0xBB67AE85, 0x3C6EF372, 0xA54FF53A, 0x510E527F, 0x9B05688C, 0x1F83D9AB, 0x5BE0CD19
  ]

  /** What stays fixed while one input is hashed. */
  datatype Mode = Mode(compress: Compress, key: Words8, flags: bv32)

  datatype Output = Output(cv: Words8, block: Words16, counter: nat, blockLen: nat, flags: bv32)

  function With(flags: bv32, bit: bv32): bv32 { flags | bit }

  function ChainingValue(m: Mode, o: Output): Words8 {
    m.compress(o.cv, o.block, o.counter, o.blockLen, o.flags)[..8]
  }

  function RootWords(m: Mode, o: Output): Words8 {
    m.compress(o.cv, o.block, 0, o.blockLen, With(o.flags, ROOT))[..8]
  }

  function ParentOutput(m: Mode, left: Words8, right: Words8): Output {
    Output(m.key, left + right, 0, BLOCK_LEN, With(m.flags, PARENT))
  }

  // ----- little-endian words

  function Le32(b0: byte, b1: byte, b2: byte, b3: byte): word {
    b0 + 256 * b1 + 0x1_0000 * b2 + 0x100_0000 * b3
  }

  function ByteOf(w: word, k: nat): byte
    requires k < 4
  {
    if k == 0 then w % 256
    else if k == 1 then w / 256 % 256
    else if k == 2 then w / 0x1_0000 % 256
    else w / 0x100_0000
  }

  function BytesToWords8(b: bytes): Words8
    requires |b| == 32
  {
    seq(8, i requires 0 <= i < 8 => Le32(b[4 * i], b[4 * i + 1], b[4 * i + 2], b[4 * i + 3]))
  }

  function BytesToWords16(b: bytes): Words16
    requires |b| == 64
  {
    seq(16, i requires 0 <= i < 16 => Le32(b[4 * i], b[4 * i + 1], b[4 * i + 2], b[4 * i + 3]))
  }

  function WordsToBytes(w: Words8): (b: bytes)
    ensures |b| == 32
  {
    seq(32, i requires 0 <= i < 32 => ByteOf(w[i / 4], i % 4))
  }

  lemma SplitWord(w: word)
    ensures Le32(ByteOf(w, 0), ByteOf(w, 1), ByteOf(w, 2), ByteOf(w, 3)) == w
  {
    assert w / 256 / 256 == w / 0x1_0000 && w / 0x1_0000 / 256 == w / 0x100_0000;
  }

  lemma WordsRoundTrip(w: Words8)
    ensures BytesToWords8(WordsToBytes(w)) == w
  {
    hide Le32, ByteOf;
    var b := WordsToBytes(w);
    forall i | 0 <= i < 8
      ensures BytesToWords8(b)[i] == w[i]
    {
      assert b[4 * i] == ByteOf(w[i], 0) && b[4 * i + 1] == ByteOf(w[i], 1);
      assert b[4 * i + 2] == ByteOf(w[i], 2) && b[4 * i + 3] == ByteOf(w[i], 3);
      SplitWord(w[i]);
    }
  }

  // ----- chunks and blocks

  /** Number of pieces of `size` bytes in `len` bytes; an empty input still has one empty piece. */
  function PieceCount(len: nat, size: nat): (n: nat)
    requires size > 0
    ensures n >= 1
  {
    if len == 0 then 1 else (len - 1) / size + 1
  }

  function Piece(s: bytes, size: nat, i: nat): (r: bytes)
    ensures |r| <= size
  {
    var start := i * size;
    if start < |s| then s[start..Min(|s|, start + size)] else []
  }

  function PadBlock(b: bytes): Words16
    requires |b| <= BLOCK_LEN
  {
    BytesToWords16(b + seq(BLOCK_LEN - |b|, _ => 0))
  }

  function BlockFlags(m: Mode, i: nat): bv32 { if i == 0 then With(m.flags, CHUNK_START) else m.flags }

  /** The chaining value that enters block i of a chunk. */
  function BlockCv(m: Mode, chunk: bytes, counter: nat, i: nat): Words8 {
    if i == 0 then m.key
    else m.compress(BlockCv(m, chunk, counter, i - 1), PadBlock(Piece(chunk, BLOCK_LEN, i - 1)),
                    counter, BLOCK_LEN, BlockFlags(m, i - 1))[..8]
  }

  /** Output of a chunk node: its last block, not yet compressed. */
  function ChunkNode(m: Mode, chunk: bytes, counter: nat): Output {
    var last := PieceCount(|chunk|, BLOCK_LEN) - 1;
    var block := Piece(chunk, BLOCK_LEN, last);
    Output(BlockCv(m, chunk, counter, last), PadBlock(block), counter, |block|,
           With(BlockFlags(m, last), CHUNK_END))
  }

  method ChunkOutput(m: Mode, chunk: bytes, counter: nat) returns (o: Output)
    ensures o == ChunkNode(m, chunk, counter)
  {
    hide PadBlock, Piece, PieceCount, With;
    var blocks := PieceCount(|chunk|, BLOCK_LEN);
    var cv := m.key;
    var i := 0;
    while true
      invariant 0 <= i < blocks
      invariant cv == BlockCv(m, chunk, counter, i)
      decreases blocks - i
    {
      var block := Piece(chunk, BLOCK_LEN, i);
      var blockFlags := m.flags;
      if i == 0 {
        blockFlags := With(blockFlags, CHUNK_START);
      }
      if i + 1 == blocks {
        blockFlags := With(blockFlags, CHUNK_END);
        return Output(cv, PadBlock(block), counter, |block|, blockFlags);
      }
      cv := m.compress(cv, PadBlock(block), counter, BLOCK_LEN, blockFlags)[..8];
      i := i + 1;
    }
  }

  // ----- the tree

  function Leaf(m: Mode, input: bytes, i: nat): Output {
    ChunkNode(m, Piece(input, CHUNK_LEN, i), i)
  }

  function TreeNodes(m: Mode, input: bytes): Nodes<Output, Words8> {
    Nodes(i => Leaf(m, input, i), o => ChainingValue(m, o), (l, r) => ParentOutput(m, l, r))
  }

  /** The root words of the tree over all chunks; only here is the ROOT flag set. */
  function TreeRoot(m: Mode, input: bytes): Words8 {
    RootWords(m, Subtree(TreeNodes(m, input), 0, PieceCount(|input|, CHUNK_LEN)))
  }

  /** The incremental algorithm computes the tree hash, for every input. */
  method HashMode(m: Mode, input: bytes) returns (hash: bytes)
    ensures hash == WordsToBytes(TreeRoot(m, input))
  {
    hide ChunkNode, Piece, PieceCount, TopPow, WordsToBytes, RootWords, ParentOutput, ChainingValue;
    var chunks := PieceCount(|input|, CHUNK_LEN);
    var t := TreeNodes(m, input);
    var stack: seq<Words8> := [];
    var k := 0;
    while k + 1 < chunks
      invariant 0 <= k < chunks
      invariant stack == Stack(t, 0, k)
    {
      var output := ChunkOutput(m, Piece(input, CHUNK_LEN, k), k);
      stack := PushChunk(t, stack, ChainingValue(m, output), k);
      k := k + 1;
    }
    var output := ChunkOutput(m, Piece(input, CHUNK_LEN, k), k);
    FoldStackIsTree(t, 0, k);
    while stack != []
      invariant FoldStack(t, stack, output) == Subtree(t, 0, chunks)
      decreases |stack|
    {
      FoldStackPop(t, stack, output);
      output := ParentOutput(m, stack[|stack| - 1], ChainingValue(m, output));
      stack := stack[..|stack| - 1];
    }
    hash := WordsToBytes(RootWords(m, output));
  }

  /** The material tree is keyed by the root of the context tree, word for word. */
  method DeriveKey(compress: Compress, context: bytes, material: bytes) returns (key: bytes)
    ensures var contextRoot := TreeRoot(Mode(compress, IV, DERIVE_KEY_CONTEXT), context);
            key == WordsToBytes(TreeRoot(Mode(compress, contextRoot, DERIVE_KEY_MATERIAL), material))
  {
    var contextKey := HashMode(Mode(compress, IV, DERIVE_KEY_CONTEXT), context);
    WordsRoundTrip(TreeRoot(Mode(compress, IV, DERIVE_KEY_CONTEXT), context));
    key := HashMode(Mode(compress, BytesToWords8(contextKey), DERIVE_KEY_MATERIAL), material);
  }
}
