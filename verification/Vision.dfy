/**
  XTLS Vision framing: a writer that pads its first packets, and a reader that strips the padding
  from any fragmentation of the wire and then passes bytes through raw. `Feed` is the meaning of a
  byte string for the reader, one byte at a time.
*/
module Vision {
  import opened Bytes

  const COMMAND_CONTINUE := 0
  const COMMAND_END := 1
  const COMMAND_DIRECT := 2
  const MAX_FRAME_CONTENT := 8171

  datatype VisionError = Command(command: byte) | ContentLength(length: nat)

  function Zeros(n: nat): (r: bytes)
    ensures |r| == n
  {
    seq(n, _ => 0)
  }

  /** Padding of a frame; the random draw is reduced to the range it is drawn from. */
  function PaddingLength(length: nat, long: bool, draw: nat): (p: nat)
    requires length <= MAX_FRAME_CONTENT
    ensures p <= MAX_FRAME_CONTENT - length
  {
    var wanted := if length < 900 && long then draw % 500 + 900 - length else draw % 256;
    Min(wanted, MAX_FRAME_CONTENT - length)
  }

  /** A short chunk of TLS is padded to 900 to 1399 bytes, any other by at most 255; and every such length occurs. */
  lemma PaddingRange(length: nat, long: bool, p: nat)
    requires length <= MAX_FRAME_CONTENT
    ensures (exists draw :: PaddingLength(length, long, draw) == p)
       <==> if long && length < 900 then 900 <= length + p <= 1399 else p <= 255 && length + p <= 8171
  {
    if long && length < 900 {
      if 900 <= length + p <= 1399 {
        assert PaddingLength(length, long, length + p - 900) == p;
      }
    } else if p <= 255 && length + p <= 8171 {
      assert PaddingLength(length, long, p) == p;
    }
  }

  function FrameBody(content: bytes, command: byte, padding: nat): bytes {
    FrameHead(|content|, command, padding) + content + Zeros(padding)
  }

  function EncodeFrame(content: bytes, command: byte, uuid: Option<bytes>, long: bool, draw: nat): Result<bytes,
      VisionError> {
    if command != COMMAND_CONTINUE && command != COMMAND_END && command != COMMAND_DIRECT then Err(Command(command))
    else if |content| > MAX_FRAME_CONTENT then Err(ContentLength(|content|))
    else Ok((if uuid.Some? then uuid.value else []) + FrameBody(content, command, PaddingLength(|content|, long, draw)))
  }

  /** A frame is refused exactly for a command other than 0, 1 and 2, and else for content of more than 8171 bytes. */
  lemma FrameRefusedExactly(content: bytes, command: byte, uuid: Option<bytes>, long: bool, draw: nat)
    ensures var r := EncodeFrame(content, command, uuid, long, draw);
            && (command > 2 ==> r == Err(Command(command)))
            && (command <= 2 && |content| > 8171 ==> r == Err(ContentLength(|content|)))
            && (r.Ok? <==> command <= 2 && |content| <= 8171)
  {
  }

  // ----- the reader, one byte at a time

  datatype Reading =
    | Prefix(seen: bytes)
    | Header(seen: bytes)
    | Content(remaining: nat, padding: nat, command: byte)
    | Padding(remaining: nat, command: byte)
    | Raw
    | Dead

  /** Moves on from parts of length zero. */
  function Settle(r: Reading): Reading {
    match r
    case Content(0, p, c) => if p == 0 then AfterFrame(c) else Padding(p, c)
    case Padding(0, c) => AfterFrame(c)
    case _ => r
  }

  function AfterFrame(command: byte): Reading { if command == COMMAND_CONTINUE then Header([]) else Raw }

  function ParseHeader(h: bytes): Reading
    requires |h| == 5
  {
    if h[0] > 2 then Dead else Content(U16(h[1], h[2]), U16(h[3], h[4]), h[0])
  }

  /** The next state and the byte it hands out, if any. */
  function FeedByte(uuid: bytes, r: Reading, b: byte): (Reading, bytes) {
    match r
    case Prefix(seen) =>
      var s := seen + [b];
      (if |s| < 16 then Prefix(s) else if s == uuid then Header([]) else Dead, [])
    case Header(seen) =>
      var s := seen + [b];
      (if |s| == 5 then Settle(ParseHeader(s)) else Header(s), [])
    case Content(n, p, c) => (Settle(Content(if n == 0 then 0 else n - 1, p, c)), [b])
    case Padding(n, c) => (Settle(Padding(if n == 0 then 0 else n - 1, c)), [])
    case Raw => (Raw, [b])
    case Dead => (Dead, [])
  }

  function Feed(uuid: bytes, r: Reading, bs: bytes): (Reading, bytes)
    decreases bs
  {
    if bs == [] then (r, [])
    else
      var (r1, out) := FeedByte(uuid, r, bs[0]);
      var (r2, rest) := Feed(uuid, r1, bs[1..]);
      (r2, out + rest)
  }

  lemma {:induction false} FeedSplit(uuid: bytes, r: Reading, a: bytes, b: bytes)
    ensures var (r1, x) := Feed(uuid, r, a);
            var (r2, y) := Feed(uuid, r1, b);
            Feed(uuid, r, a + b).0 == r2 && Feed(uuid, r, a + b).1 == x + y
    decreases a
  {
    hide FeedByte;
    if a == [] {
      assert a + b == b;
    } else {
      FeedSplit(uuid, FeedByte(uuid, r, a[0]).0, a[1..], b);
      assert (a + b)[0] == a[0] && (a + b)[1..] == a[1..] + b;
    }
  }

  // ----- runs inside one part of a frame

  lemma {:induction false} PrefixRun(uuid: bytes, seen: bytes, bs: bytes)
    requires |seen| + |bs| <= 16 && |bs| > 0
    ensures var s := seen + bs;
            Feed(uuid, Prefix(seen), bs).0 == (if |s| < 16 then Prefix(s) else if s == uuid then Header([]) else Dead)
            && Feed(uuid, Prefix(seen), bs).1 == []
    decreases bs
  {
    var s1 := seen + [bs[0]];
    if |bs| == 1 {
      assert s1 == seen + bs && bs[1..] == [];
    } else {
      PrefixRun(uuid, s1, bs[1..]);
      assert s1 + bs[1..] == seen + bs;
    }
  }

  lemma {:induction false} HeaderRun(uuid: bytes, seen: bytes, bs: bytes)
    requires |seen| + |bs| <= 5 && |bs| > 0
    ensures var s := seen + bs;
            Feed(uuid, Header(seen), bs).0 == (if |s| == 5 then Settle(ParseHeader(s)) else Header(s))
            && Feed(uuid, Header(seen), bs).1 == []
    decreases bs
  {
    hide ParseHeader, Settle;
    var s1 := seen + [bs[0]];
    if |bs| == 1 {
      assert s1 == seen + bs && bs[1..] == [];
    } else {
      HeaderRun(uuid, s1, bs[1..]);
      assert s1 + bs[1..] == seen + bs;
    }
  }

  lemma {:induction false} ContentRun(uuid: bytes, n: nat, p: nat, c: byte, bs: bytes)
    requires |bs| <= n && n > 0
    ensures Feed(uuid, Content(n, p, c), bs).0 == Settle(Content(n - |bs|, p, c))
    ensures Feed(uuid, Content(n, p, c), bs).1 == bs
    decreases bs
  {
    if bs != [] && n > 1 {
      ContentRun(uuid, n - 1, p, c, bs[1..]);
    }
  }

  lemma {:induction false} PaddingRun(uuid: bytes, n: nat, c: byte, bs: bytes)
    requires |bs| <= n && n > 0
    ensures Feed(uuid, Padding(n, c), bs).0 == Settle(Padding(n - |bs|, c)) && Feed(uuid, Padding(n, c), bs).1 == []
    decreases bs
  {
    if bs != [] && n > 1 {
      PaddingRun(uuid, n - 1, c, bs[1..]);
    }
  }

  lemma {:induction false} RawRun(uuid: bytes, bs: bytes)
    ensures Feed(uuid, Raw, bs).0 == Raw && Feed(uuid, Raw, bs).1 == bs
    decreases bs
  {
    if bs == [] {
    } else {
      RawRun(uuid, bs[1..]);
    }
  }

  lemma {:induction false} DeadRun(uuid: bytes, bs: bytes)
    ensures Feed(uuid, Dead, bs).0 == Dead && Feed(uuid, Dead, bs).1 == []
    decreases bs
  {
    if bs == [] {
    } else {
      DeadRun(uuid, bs[1..]);
    }
  }

  function FrameHead(length: nat, command: byte, padding: nat): (h: bytes)
    ensures |h| == 5
    ensures command <= 2 && length < 0x1_0000 && padding < 0x1_0000 ==>
              ParseHeader(h) == Content(length, padding, command)
  {
    hide Be16, U16;
    var h := [command] + Be16(length) + Be16(padding);
    assert h[1] == Be16(length)[0] && h[2] == Be16(length)[1] && h[3] == Be16(padding)[0] && h[4] == Be16(padding)[1];
    h
  }

  /** Content, then padding, whatever its bytes. */
  lemma FeedTail(uuid: bytes, content: bytes, command: byte, pad: bytes)
    ensures Feed(uuid, Settle(Content(|content|, |pad|, command)), content + pad).0 == AfterFrame(command)
    ensures Feed(uuid, Settle(Content(|content|, |pad|, command)), content + pad).1 == content
  {
    var r := Settle(Content(|content|, |pad|, command));
    if content != [] {
      ContentRun(uuid, |content|, |pad|, command, content);
    }
    if pad != [] {
      PaddingRun(uuid, |pad|, command, pad);
    }
    FeedSplit(uuid, r, content, pad);
  }

  /** A whole frame at a frame boundary hands out its content; END and DIRECT switch to raw. */
  lemma FeedFrame(uuid: bytes, content: bytes, command: byte, padding: nat)
    requires command <= 2 && |content| < 0x1_0000 && padding < 0x1_0000
    ensures Feed(uuid, Header([]), FrameBody(content, command, padding)).0 == AfterFrame(command)
    ensures Feed(uuid, Header([]), FrameBody(content, command, padding)).1 == content
  {
    hide Feed, ParseHeader, Zeros, FrameHead;
    var (head, pad) := (FrameHead(|content|, command, padding), Zeros(padding));
    HeaderRun(uuid, [], head);
    assert [] + head == head;
    FeedTail(uuid, content, command, pad);
    FeedSplit(uuid, Header([]), head, content + pad);
    assert FrameBody(content, command, padding) == head + (content + pad);
  }

  // ----- the writer

  /** `draws` counts the random numbers used so far. */
  datatype Writer = Writer(uuid: Option<bytes>, packetsLeft: nat, isTls: bool, padding: bool, draws: nat)

  function NewWriter(uuid: bytes): Writer { Writer(Some(uuid), 8, false, true, 0) }

  predicate LooksTls(d: bytes) {
    |d| >= 6 && ((d[0] == 0x16 && d[1] == 0x03) || (d[0] == 0x17 && d[1] == 0x03 && d[2] == 0x03))
  }

  predicate IsApplicationData(d: bytes) { |d| >= 5 && d[0] == 0x17 && d[1] == 0x03 && d[2] == 0x03 }

  function Observe(w: Writer, d: bytes): Writer {
    w.(packetsLeft := if w.packetsLeft == 0 then 0 else w.packetsLeft - 1, isTls := w.isTls || LooksTls(d))
  }

  /** This chunk is sent with the END command. */
  predicate Ends(w: Writer, chunk: bytes) {
    var o := Observe(w, chunk);
    (o.isTls && IsApplicationData(chunk)) || o.packetsLeft == 0
  }

  function AfterChunk(w: Writer, chunk: bytes): Writer {
    Observe(w, chunk).(uuid := None, padding := w.padding && !Ends(w, chunk), draws := w.draws + 1)
  }

  function ChunkFrame(rng: nat -> nat, w: Writer, chunk: bytes): bytes
    requires |chunk| <= MAX_FRAME_CONTENT
  {
    EncodeFrame(chunk, if Ends(w, chunk) then COMMAND_END else COMMAND_CONTINUE, w.uuid, Observe(w, chunk).isTls,
                rng(w.draws)).value
  }

  /** What one chunk puts on the wire, byte by byte up to the content. */
  lemma FrameLayout(rng: nat -> nat, w: Writer, chunk: bytes)
    requires |chunk| <= MAX_FRAME_CONTENT
    ensures var p := PaddingLength(|chunk|, w.isTls || LooksTls(chunk), rng(w.draws));
            var head := [if Ends(w, chunk) then 1 else 0, |chunk| / 256, |chunk| % 256, p / 256, p % 256];
            ChunkFrame(rng, w, chunk)
            == (if w.uuid.Some? then w.uuid.value else []) + (head + chunk + seq(p, _ => 0))
  {
    hide LooksTls, PaddingLength, Ends;
    var p := PaddingLength(|chunk|, Observe(w, chunk).isTls, rng(w.draws));
    var command := if Ends(w, chunk) then COMMAND_END else COMMAND_CONTINUE;
    assert FrameHead(|chunk|, command, p) == [command, |chunk| / 256, |chunk| % 256, p / 256, p % 256];
  }

  // ----- which chunk ends the padding

  /** The writer after these chunks. */
  function AfterChunks(w: Writer, chunks: seq<bytes>): Writer {
    if chunks == [] then w else AfterChunk(AfterChunks(w, chunks[..|chunks| - 1]), chunks[|chunks| - 1])
  }

  /** Some chunk looks like TLS: a handshake or application data record of at least six bytes. */
  predicate TlsSeen(chunks: seq<bytes>) {
    exists i | 0 <= i < |chunks| ::
      |chunks[i]| >= 6 && chunks[i][1] == 3 && (chunks[i][0] == 22 || (chunks[i][0] == 23 && chunks[i][2] == 3))
  }

  lemma TlsSeenSnoc(chunks: seq<bytes>, chunk: bytes)
    ensures TlsSeen(chunks + [chunk]) <==> TlsSeen(chunks) || LooksTls(chunk)
  {
    var all := chunks + [chunk];
    if TlsSeen(chunks) {
      var i :| 0 <= i < |chunks|
        && |chunks[i]| >= 6 && chunks[i][1] == 3 && (chunks[i][0] == 22 || (chunks[i][0] == 23 && chunks[i][2] == 3));
      assert all[i] == chunks[i];
    }
    assert all[|chunks|] == chunk;
  }

  lemma {:induction false} WriterAfter(uuid: bytes, chunks: seq<bytes>)
    ensures var w := AfterChunks(NewWriter(uuid), chunks);
            && w.packetsLeft == (if |chunks| <= 8 then 8 - |chunks| else 0)
            && (w.isTls <==> TlsSeen(chunks)) && w.draws == |chunks|
            && w.uuid == if chunks == [] then Some(uuid) else None
    decreases |chunks|
  {
    hide LooksTls, IsApplicationData;
    if chunks == [] {
    } else {
      var (front, last) := (chunks[..|chunks| - 1], chunks[|chunks| - 1]);
      WriterAfter(uuid, front);
      TlsSeenSnoc(front, last);
      assert front + [last] == chunks;
    }
  }

  /** A chunk is sent with END exactly if it is the eighth or later, or application data after TLS was seen. */
  lemma EndChunk(uuid: bytes, chunks: seq<bytes>, chunk: bytes)
    ensures Ends(AfterChunks(NewWriter(uuid), chunks), chunk) <==>
              || |chunks| >= 7
              || (|chunk| >= 5 && chunk[0] == 23 && chunk[1] == 3 && chunk[2] == 3 && TlsSeen(chunks + [chunk]))
  {
    hide LooksTls;
    WriterAfter(uuid, chunks);
    TlsSeenSnoc(chunks, chunk);
  }

  /** Chunk i of a run is sent with END. */
  predicate EndsAt(uuid: bytes, chunks: seq<bytes>, i: nat)
    requires i < |chunks|
  {
    Ends(AfterChunks(NewWriter(uuid), chunks[..i]), chunks[i])
  }

  lemma EndsAtFront(uuid: bytes, chunks: seq<bytes>, n: nat, i: nat)
    requires i < n <= |chunks|
    ensures EndsAt(uuid, chunks[..n], i) == EndsAt(uuid, chunks, i)
  {
    hide Ends, AfterChunks;
    assert chunks[..n][..i] == chunks[..i];
  }

  lemma PaddingStep(uuid: bytes, chunks: seq<bytes>)
    requires chunks != []
    ensures var n := |chunks| - 1;
            AfterChunks(NewWriter(uuid), chunks).padding
            <==> AfterChunks(NewWriter(uuid), chunks[..n]).padding && !EndsAt(uuid, chunks, n)
  {
    hide Ends;
  }

  /** Padding goes on exactly until the first such chunk. */
  lemma {:induction false} PaddingUntilEnd(uuid: bytes, chunks: seq<bytes>)
    ensures AfterChunks(NewWriter(uuid), chunks).padding <==> forall i | 0 <= i < |chunks| :: !EndsAt(uuid, chunks, i)
    decreases |chunks|
  {
    hide EndsAt, AfterChunk;
    if chunks == [] {
    } else {
      var n := |chunks| - 1;
      PaddingStep(uuid, chunks);
      PaddingUntilEnd(uuid, chunks[..n]);
      forall i | 0 <= i < n
        ensures EndsAt(uuid, chunks[..n], i) == EndsAt(uuid, chunks, i)
      {
        EndsAtFront(uuid, chunks, n, i);
      }
    }
  }

  function FirstChunk(data: bytes): nat { Min(MAX_FRAME_CONTENT, |data|) }

  /** The frames of one call; the loop goes on framing even after an END chunk. */
  function EncodeChunks(rng: nat -> nat, w: Writer, data: bytes): (Writer, seq<bytes>)
    decreases |data|
  {
    if data == [] then (w, [])
    else
      var (chunk, rest) := (data[..FirstChunk(data)], data[FirstChunk(data)..]);
      var (w', frames) := EncodeChunks(rng, AfterChunk(w, chunk), rest);
      (w', [ChunkFrame(rng, w, chunk)] + frames)
  }

  function Encode(rng: nat -> nat, w: Writer, data: bytes): (Writer, seq<bytes>) {
    if !w.padding then (w, [data]) else EncodeChunks(rng, w, data)
  }

  function EncodeAll(rng: nat -> nat, w: Writer, calls: seq<bytes>): (Writer, bytes)
    decreases calls
  {
    if calls == [] then (w, [])
    else
      var (w1, frames) := Encode(rng, w, calls[0]);
      var (w2, wire) := EncodeAll(rng, w1, calls[1..]);
      (w2, Flatten(frames) + wire)
  }

  class VisionWriter {
    const rng: nat -> nat
    var uuid: Option<bytes>
    var packetsLeft: nat
    var isTls: bool
    var padding: bool
    var draws: nat

    function Value(): Writer
      reads this
    {
      Writer(uuid, packetsLeft, isTls, padding, draws)
    }

    constructor (rng: nat -> nat, uuid: bytes)
      ensures this.rng == rng && Value() == NewWriter(uuid)
    {
      this.rng := rng;
      this.uuid, packetsLeft, isTls, padding, draws := Some(uuid), 8, false, true, 0;
    }

    /** One chunk of a call: looks at it, decides its command and frames it. */
    method NextFrame(chunk: bytes) returns (r: Result<bytes, VisionError>)
      requires |chunk| <= MAX_FRAME_CONTENT
      modifies this
      ensures r == Ok(ChunkFrame(rng, old(Value()), chunk)) && Value() == AfterChunk(old(Value()), chunk)
    {
      packetsLeft := if packetsLeft == 0 then 0 else packetsLeft - 1;
      isTls := isTls || LooksTls(chunk);
      var command: byte := COMMAND_CONTINUE;
      if (isTls && IsApplicationData(chunk)) || packetsLeft == 0 {
        padding := false;
        command := COMMAND_END;
      }
      r := EncodeFrame(chunk, command, uuid, isTls, rng(draws));
      uuid, draws := None, draws + 1;
    }

    /** A call never fails: its chunks are short enough and its commands known. */
    method EncodeCall(data: bytes) returns (r: Result<seq<bytes>, VisionError>)
      modifies this
      ensures r.Ok? && (Value(), r.value) == Encode(rng, old(Value()), data)
    {
      hide ChunkFrame, AfterChunk;
      if !padding {
        return Ok([data]);
      }
      var frames: seq<bytes> := [];
      var i := 0;
      ghost var all := EncodeChunks(rng, Value(), data);
      assert data[0..] == data && [] + all.1 == all.1;
      while i < |data|
        invariant 0 <= i <= |data|
        invariant all.0 == EncodeChunks(rng, Value(), data[i..]).0
        invariant all.1 == frames + EncodeChunks(rng, Value(), data[i..]).1
      {
        ghost var tail := data[i..];
        var n := Min(MAX_FRAME_CONTENT, |data| - i);
        var chunk := data[i..i + n];
        assert chunk == tail[..FirstChunk(tail)] && data[i + n..] == tail[FirstChunk(tail)..];
        var frame := NextFrame(chunk);
        ghost var rest := EncodeChunks(rng, Value(), data[i + n..]).1;
        assert frames + ([frame.value] + rest) == frames + [frame.value] + rest;
        frames := frames + [frame.value];
        i := i + n;
      }
      assert frames + [] == frames;
      r := Ok(frames);
    }
  }

  // ----- what the reader makes of it

  /** Where a reader of everything written so far stands. */
  function Stage(w: Writer): Reading {
    if w.uuid.Some? then Prefix([]) else if w.padding then Header([]) else Raw
  }

  predicate Plausible(uuid: bytes, w: Writer) { |uuid| == 16 && (w.uuid.Some? ==> w.uuid.value == uuid && w.padding) }

  lemma FeedChunk(uuid: bytes, rng: nat -> nat, w: Writer, chunk: bytes)
    requires Plausible(uuid, w) && w.padding && |chunk| <= MAX_FRAME_CONTENT
    ensures Feed(uuid, Stage(w), ChunkFrame(rng, w, chunk)).0 == Stage(AfterChunk(w, chunk))
    ensures Feed(uuid, Stage(w), ChunkFrame(rng, w, chunk)).1 == chunk
  {
    hide Feed, FrameBody, PaddingLength, LooksTls, IsApplicationData;
    var command := if Ends(w, chunk) then COMMAND_END else COMMAND_CONTINUE;
    var padding := PaddingLength(|chunk|, Observe(w, chunk).isTls, rng(w.draws));
    FeedFrame(uuid, chunk, command, padding);
    var body := FrameBody(chunk, command, padding);
    if w.uuid.Some? {
      PrefixRun(uuid, [], uuid);
      assert [] + uuid == uuid;
      FeedSplit(uuid, Prefix([]), uuid, body);
    } else {
      assert [] + body == body;
    }
  }

  /** Frames are longer than their content. */
  lemma {:induction false} FramesAreLonger(rng: nat -> nat, w: Writer, data: bytes)
    ensures |Flatten(EncodeChunks(rng, w, data).1)| >= |data| + if data == [] then 0 else 5
    decreases |data|
  {
    if data == [] {
    } else {
      var (chunk, rest) := (data[..FirstChunk(data)], data[FirstChunk(data)..]);
      FramesAreLonger(rng, AfterChunk(w, chunk), rest);
      assert |ChunkFrame(rng, w, chunk)| >= |chunk| + 5;
    }
  }

  lemma {:induction false} RawWriter(rng: nat -> nat, w: Writer, data: bytes)
    requires !w.padding && w.uuid.None?
    ensures !EncodeChunks(rng, w, data).0.padding && EncodeChunks(rng, w, data).0.uuid.None?
    decreases |data|
  {
    if data == [] {
    } else {
      RawWriter(rng, AfterChunk(w, data[..FirstChunk(data)]), data[FirstChunk(data)..]);
    }
  }

  /** The chunk that ends the padding, if any, is the last chunk of the call. */
  predicate EndsLast(w: Writer, data: bytes)
    decreases |data|
  {
    data != [] ==>
      var (chunk, rest) := (data[..FirstChunk(data)], data[FirstChunk(data)..]);
      if Ends(w, chunk) then rest == [] else EndsLast(AfterChunk(w, chunk), rest)
  }

  lemma EncodeStep(rng: nat -> nat, w: Writer, data: bytes)
    requires data != []
    ensures var (chunk, rest) := (data[..FirstChunk(data)], data[FirstChunk(data)..]);
            var (w', frames) := EncodeChunks(rng, AfterChunk(w, chunk), rest);
            && EncodeChunks(rng, w, data).0 == w'
            && Flatten(EncodeChunks(rng, w, data).1) == ChunkFrame(rng, w, chunk) + Flatten(frames)
            && EndsLast(w, data) == (if Ends(w, chunk) then rest == [] else EndsLast(AfterChunk(w, chunk), rest))
            && chunk + rest == data
  {
    hide ChunkFrame, Ends, AfterChunk;
    var (chunk, rest) := (data[..FirstChunk(data)], data[FirstChunk(data)..]);
    var frames := EncodeChunks(rng, AfterChunk(w, chunk), rest).1;
    assert ([ChunkFrame(rng, w, chunk)] + frames)[1..] == frames;
  }

  /** A call is read back exactly if END comes last; otherwise the reader hands out more than was written. */
  lemma {:induction false} FeedCall(uuid: bytes, rng: nat -> nat, w: Writer, data: bytes)
    requires Plausible(uuid, w) && w.padding
    ensures var (w', frames) := EncodeChunks(rng, w, data);
            var (r, out) := Feed(uuid, Stage(w), Flatten(frames));
            Plausible(uuid, w') && r == Stage(w')
            && (if EndsLast(w, data) then out == data else |out| > |data|)
    decreases |data|
  {
    if data == [] {
    } else {
      hide ChunkFrame, EncodeChunks, Feed, EndsLast, Observe, LooksTls, IsApplicationData, Flatten;
      var (chunk, rest) := (data[..FirstChunk(data)], data[FirstChunk(data)..]);
      var (w1, frame) := (AfterChunk(w, chunk), ChunkFrame(rng, w, chunk));
      EncodeStep(rng, w, data);
      FeedChunk(uuid, rng, w, chunk);
      var tail := Flatten(EncodeChunks(rng, w1, rest).1);
      FeedSplit(uuid, Stage(w), frame, tail);
      if Ends(w, chunk) {
        RawRun(uuid, tail);
        RawWriter(rng, w1, rest);
        FramesAreLonger(rng, w1, rest);
        NoChunks(rng, w1);
      } else {
        FeedCall(uuid, rng, w1, rest);
      }
    }
  }

  lemma NoChunks(rng: nat -> nat, w: Writer)
    ensures Flatten(EncodeChunks(rng, w, []).1) == []
  {
  }

  /** In every call of the run the END chunk, if any, comes last. */
  predicate RunEndsLast(rng: nat -> nat, w: Writer, calls: seq<bytes>)
    decreases calls
  {
    calls != [] ==> (w.padding ==> EndsLast(w, calls[0])) && RunEndsLast(rng, Encode(rng, w, calls[0]).0, calls[1..])
  }

  lemma {:induction false} FeedRun(uuid: bytes, rng: nat -> nat, w: Writer, calls: seq<bytes>)
    requires Plausible(uuid, w)
    ensures var (w', wire) := EncodeAll(rng, w, calls);
            var (r, out) := Feed(uuid, Stage(w), wire);
            r == Stage(w') && (if RunEndsLast(rng, w, calls) then out == Flatten(calls) else |out| > |Flatten(calls)|)
    decreases calls
  {
    if calls == [] {
    } else {
      var (w1, frames) := Encode(rng, w, calls[0]);
      if w.padding {
        FeedCall(uuid, rng, w, calls[0]);
      } else {
        RawRun(uuid, calls[0]);
        assert Flatten([calls[0]]) == calls[0];
      }
      FeedRun(uuid, rng, w1, calls[1..]);
      FeedSplit(uuid, Stage(w), Flatten(frames), EncodeAll(rng, w1, calls[1..]).1);
      hide Feed, Encode, EndsLast;
    }
  }

  /**
    For every sequence of calls, all padding lengths and all data, the reader hands out exactly the
    data written if and only if no call goes on after its END chunk.
  */
  lemma RoundTripExactly(uuid: bytes, rng: nat -> nat, calls: seq<bytes>)
    requires |uuid| == 16
    ensures var (w, wire) := EncodeAll(rng, NewWriter(uuid), calls);
            Feed(uuid, Prefix([]), wire).0 == Stage(w)
            && (Feed(uuid, Prefix([]), wire).1 == Flatten(calls) <==> RunEndsLast(rng, NewWriter(uuid), calls))
  {
    FeedRun(uuid, rng, NewWriter(uuid), calls);
  }

  /** Calls of at most one chunk always round-trip. */
  lemma {:induction false} ShortCallsEndLast(rng: nat -> nat, w: Writer, calls: seq<bytes>)
    requires forall c | c in calls :: |c| <= MAX_FRAME_CONTENT
    ensures RunEndsLast(rng, w, calls)
    decreases calls
  {
    if calls == [] {
    } else {
      assert |calls[0]| <= MAX_FRAME_CONTENT;
      ShortCallsEndLast(rng, Encode(rng, w, calls[0]).0, calls[1..]);
    }
  }

  /** A first call of two chunks whose first looks like TLS application data is not read back. */
  lemma LongCallFails(uuid: bytes, rng: nat -> nat, data: bytes)
    requires |uuid| == 16 && |data| > MAX_FRAME_CONTENT && data[0] == 0x17 && data[1] == 0x03 && data[2] == 0x03
    ensures var wire := EncodeAll(rng, NewWriter(uuid), [data]).1;
            Feed(uuid, Prefix([]), wire).1 != data
  {
    var w := NewWriter(uuid);
    assert FirstChunk(data) == MAX_FRAME_CONTENT;
    assert Ends(w, data[..MAX_FRAME_CONTENT]);
    assert !EndsLast(w, data);
    assert !RunEndsLast(rng, w, [data]);
    assert Flatten([data]) == data;
    hide Feed, EncodeAll, EndsLast, RunEndsLast, Ends;
    RoundTripExactly(uuid, rng, [data]);
  }

  // ----- the reader

  /** After the first n bytes of the wire the reader stands at r and has handed out or buffered `out`. */
  ghost predicate At(uuid: bytes, wire: bytes, n: nat, r: Reading, out: bytes) {
    n <= |wire| && Feed(uuid, Prefix([]), wire[..n]).0 == r && Feed(uuid, Prefix([]), wire[..n]).1 == out
  }

  lemma AtMore(uuid: bytes, wire: bytes, n: nat, m: nat, r: Reading, out: bytes)
    requires At(uuid, wire, n, r, out) && n <= m <= |wire|
    ensures var (r', more) := Feed(uuid, r, wire[n..m]);
            At(uuid, wire, m, r', out + more)
  {
    FeedSplit(uuid, Prefix([]), wire[..n], wire[n..m]);
    assert wire[..n] + wire[n..m] == wire[..m];
  }

  lemma AtPrefix(uuid: bytes, wire: bytes, n: nat, r: Reading, out: bytes)
    requires At(uuid, wire, n, r, out)
    ensures out <= Feed(uuid, Prefix([]), wire).1
    ensures n == |wire| ==> Feed(uuid, Prefix([]), wire) == (r, out)
    ensures r == Dead ==> Feed(uuid, Prefix([]), wire).0 == Dead
  {
    AtMore(uuid, wire, n, |wire|, r, out);
    assert wire[..|wire|] == wire;
    DeadRun(uuid, wire[n..|wire|]);
  }

  lemma AtHere(uuid: bytes, wire: bytes, n: nat, r: Reading, out: bytes)
    requires At(uuid, wire, n, r, out)
    ensures n <= |wire| && Feed(uuid, Prefix([]), wire[..n]) == (r, out)
  {
  }

  datatype Inner = Stalled | Broken | Ended | Got(data: bytes)
  datatype ReadError = InvalidData | UnexpectedEof | Transport
  datatype ReadResult = Ready(data: bytes) | Pending | Error(kind: ReadError)

  class VisionReader {
    const uuid: bytes
    const steady: bool               // the transport neither stalls nor fails
    ghost const wire: bytes          // everything the transport gives before it ends
    ghost var delivered: bytes       // everything handed to the caller so far
    var source: bytes                // the part of the wire still to come
    var prefix: bytes                // the part of the UUID read so far
    var raw: bool
    var state: Reading               // header, content or padding of the current frame
    var output: bytes

    function Value(): Reading
      reads this
    {
      if raw then Raw else if |prefix| < 16 then Prefix(prefix) else Settle(state)
    }

    ghost predicate Valid()
      reads this
    {
      && |uuid| == 16 && |source| <= |wire| && source == wire[|wire| - |source|..]
      && (state.Content? || state.Padding? || (state.Header? && |state.seen| < 5))
      && |prefix| <= 16 && (|prefix| < 16 ==> !raw && state == Header([]))
      && At(uuid, wire, |wire| - |source|, Value(), delivered + output)
    }

    /** What the whole wire means. */
    ghost function Whole(): (Reading, bytes) { Feed(uuid, Prefix([]), wire) }

    constructor (uuid: bytes, steady: bool, wire: bytes)
      requires |uuid| == 16
      ensures Valid() && delivered == [] && this.uuid == uuid && this.wire == wire && source == wire
      ensures this.steady == steady
    {
      this.uuid, this.steady, this.wire, source, delivered := uuid, steady, wire, wire, [];
      prefix, raw, state, output := [], false, Header([]), [];
    }

    /** A poll of the transport for at most `cap` bytes: it may stall, fail, end, or give any part. */
    method PollInner(cap: nat) returns (r: Inner)
      requires cap > 0
      modifies `source
      ensures r.Got? ==> 1 <= |r.data| <= cap && old(source) == r.data + source
      ensures !r.Got? ==> source == old(source)
      ensures r.Ended? ==> source == []
      ensures r.Stalled? || r.Broken? ==> !steady
    {
      var stalled: bool, broken: bool := *, *;
      if stalled && !steady {
        return Stalled;
      }
      if broken && !steady {
        return Broken;
      }
      if source == [] {
        return Ended;
      }
      var n := 1;
      n :| 1 <= n <= |source| && n <= cap;
      r := Got(source[..n]);
      source := source[n..];
    }

    /** The position after the bytes just taken from the transport. */
    ghost method Taken(r: Reading, data: bytes, out: bytes)
      requires |data| + |source| <= |wire| && data + source == wire[|wire| - |data| - |source|..]
      requires At(uuid, wire, |wire| - |data| - |source|, r, out)
      ensures source == wire[|wire| - |source|..]
      ensures At(uuid, wire, |wire| - |source|, Feed(uuid, r, data).0, out + Feed(uuid, r, data).1)
    {
      var (n, m) := (|wire| - |data| - |source|, |wire| - |source|);
      assert wire[n..m] == data && wire[m..] == source by {
        assert wire[n..][..|data|] == data && wire[n..][|data|..] == source;
      }
      AtMore(uuid, wire, n, m, r, out);
    }

    /** The UUID prefix: the outcome of one read of it, or nothing yet. */
    method ReadPrefix() returns (r: Option<ReadResult>)
      requires Valid() && |prefix| < 16 && output == []
      modifies `source, `prefix
      ensures r.None? ==> Valid() && |source| < old(|source|)
      ensures r.Some? && !r.value.Error? ==> r.value.Pending? && Valid()
      ensures r == Some(Error(UnexpectedEof)) ==> source == [] && Value().Prefix? && Whole() == (Value(), delivered)
      ensures r == Some(Error(InvalidData)) ==> Whole().0 == Dead
      ensures r == Some(Pending) || r == Some(Error(Transport)) ==> !steady && Valid()
    {
      hide Feed, At;
      ghost var (r0, out) := (Value(), delivered + output);
      var inner := PollInner(16 - |prefix|);
      match inner
      case Stalled => return Some(Pending);
      case Broken => return Some(Error(Transport));
      case Ended =>
        AtPrefix(uuid, wire, |wire| - |source|, r0, out);
        assert delivered + output == delivered;
        return Some(Error(UnexpectedEof));
      case Got(data) =>
        Taken(r0, data, out);
        PrefixRun(uuid, prefix, data);
        assert out + [] == out;
        prefix := prefix + data;
        if |prefix| == 16 && prefix != uuid {
          AtPrefix(uuid, wire, |wire| - |source|, Dead, out);
          return Some(Error(InvalidData));
        }
        r := None;
    }

    /** The five bytes of a frame header; here, and only here or in raw mode, the stream may end. */
    method ReadHeader() returns (r: Option<ReadResult>)
      requires Valid() && !raw && |prefix| == 16 && state.Header? && output == []
      modifies `source, `state
      ensures r.None? ==> Valid() && |source| < old(|source|)
      ensures r.Some? && !r.value.Error? ==> Valid()
      ensures r.Some? && r.value.Ready? ==>
                r.value.data == [] && source == [] && Value().Header? && Whole() == (Value(), delivered)
      ensures r.Some? && r.value.Error? ==>
                r.value.kind != UnexpectedEof && (r.value.kind == InvalidData ==> Whole().0 == Dead)
      ensures r == Some(Pending) || r == Some(Error(Transport)) ==> !steady && Valid()
    {
      hide Feed, At, ParseHeader;
      ghost var (r0, out) := (Value(), delivered + output);
      var inner := PollInner(5 - |state.seen|);
      match inner
      case Stalled => return Some(Pending);
      case Broken => return Some(Error(Transport));
      case Ended =>
        AtPrefix(uuid, wire, |wire| - |source|, r0, out);
        assert delivered + output == delivered;
        return Some(Ready([]));
      case Got(data) =>
        Taken(r0, data, out);
        HeaderRun(uuid, state.seen, data);
        assert out + [] == out;
        var seen := state.seen + data;
        if |seen| < 5 {
          state := Header(seen);
          return None;
        }
        HeaderCases(seen);
        if seen[0] > 2 {
          AtPrefix(uuid, wire, |wire| - |source|, Dead, out);
          return Some(Error(InvalidData));
        }
        state := Content(U16(seen[1], seen[2]), U16(seen[3], seen[4]), seen[0]);
        r := None;
    }

    method ReadContent() returns (r: Option<ReadResult>)
      requires Valid() && !raw && |prefix| == 16 && state.Content? && state.remaining > 0 && output == []
      modifies `source, `state, `output
      ensures r.None? ==> Valid() && |source| < old(|source|)
      ensures r.Some? && !r.value.Error? ==> r.value.Pending? && Valid()
      ensures r == Some(Error(UnexpectedEof)) ==> source == [] && Value().Content? && Whole() == (Value(), delivered)
      ensures r != Some(Error(InvalidData))
      ensures r == Some(Pending) || r == Some(Error(Transport)) ==> !steady && Valid()
      ensures r.Some? ==> output == []
    {
      hide Feed, At;
      ghost var (r0, out) := (Value(), delivered + output);
      var inner := PollInner(Min(state.remaining, 32768));
      match inner
      case Stalled => return Some(Pending);
      case Broken => return Some(Error(Transport));
      case Ended =>
        AtPrefix(uuid, wire, |wire| - |source|, r0, out);
        assert delivered + output == delivered;
        return Some(Error(UnexpectedEof));
      case Got(data) =>
        Taken(r0, data, out);
        ContentRun(uuid, state.remaining, state.padding, state.command, data);
        state := Content(state.remaining - |data|, state.padding, state.command);
        output := data;
        assert out + data == delivered + output;
        r := None;
    }

    method ReadPadding() returns (r: Option<ReadResult>)
      requires Valid() && !raw && |prefix| == 16 && state.Padding? && state.remaining > 0 && output == []
      modifies `source, `state
      ensures r.None? ==> Valid() && |source| < old(|source|)
      ensures r.Some? && !r.value.Error? ==> r.value.Pending? && Valid()
      ensures r == Some(Error(UnexpectedEof)) ==> source == [] && Value().Padding? && Whole() == (Value(), delivered)
      ensures r != Some(Error(InvalidData))
      ensures r == Some(Pending) || r == Some(Error(Transport)) ==> !steady && Valid()
    {
      hide Feed, At;
      ghost var (r0, out) := (Value(), delivered + output);
      var inner := PollInner(Min(state.remaining, 8192));
      match inner
      case Stalled => return Some(Pending);
      case Broken => return Some(Error(Transport));
      case Ended =>
        AtPrefix(uuid, wire, |wire| - |source|, r0, out);
        assert delivered + output == delivered;
        return Some(Error(UnexpectedEof));
      case Got(data) =>
        Taken(r0, data, out);
        PaddingRun(uuid, state.remaining, state.command, data);
        assert out + [] == out;
        state := Padding(state.remaining - |data|, state.command);
        r := None;
    }

    method ReadRaw(room: nat) returns (r: ReadResult)
      requires Valid() && raw && output == []
      modifies `source, `delivered
      ensures r.Error? ==> r.kind == Transport
      ensures Valid()
      ensures delivered == old(delivered) + if r.Ready? then r.data else []
      ensures r.Ready? ==> |r.data| <= room
      ensures r == Ready([]) && room > 0 ==> source == [] && Whole() == (Raw, delivered)
      ensures !r.Ready? ==> !steady
    {
      hide Feed, At, Settle;
      ghost var out := delivered + output;
      assert out == delivered;
      if room == 0 {
        return Ready([]);
      }
      var inner := PollInner(room);
      match inner
      case Stalled => return Pending;
      case Broken => return Error(Transport);
      case Ended =>
        AtPrefix(uuid, wire, |wire| - |source|, Raw, out);
        return Ready([]);
      case Got(data) =>
        Taken(Raw, data, out);
        RawRun(uuid, data);
        delivered := delivered + data;
        assert delivered + output == out + data;
        r := Ready(data);
    }

    /** Hands out part of the content that is there. */
    method HandOut(room: nat) returns (data: bytes)
      requires Valid() && output != []
      modifies `output, `delivered
      ensures Valid() && data == old(output)[..Min(|old(output)|, room)]
      ensures delivered == old(delivered) + data <= Whole().1
    {
      hide Feed, At;
      AtPrefix(uuid, wire, |wire| - |source|, Value(), delivered + output);
      var n := Min(|output|, room);
      data := output[..n];
      ghost var handed := delivered + output;
      output := output[n..];
      delivered := delivered + data;
      assert delivered + output == handed && delivered <= handed;
    }

    /** How far the parts of a frame are from raw mode, when no byte is read. */
    ghost function PartsLeft(): nat
      reads this
    {
      if raw then 0 else if state.Header? then 1 else if state.Padding? then 2 else 3
    }

    /** One turn of the loop before raw mode: the outcome of a read, or nothing yet. */
    method ReadPart() returns (r: Option<ReadResult>)
      requires Valid() && !raw && output == []
      modifies `source, `prefix, `raw, `state, `output
      ensures r.None? ==>
                Valid() && (|source| < old(|source|) || (source == old(source) && PartsLeft() < old(PartsLeft())))
      ensures r.Some? ==> output == [] && (r.value.Error? || Valid()) && (r.value.Ready? ==> r.value.data == [])
      ensures r == Some(Ready([])) ==> source == [] && Whole() == (Value(), delivered) && Value().Header?
      ensures r == Some(Error(UnexpectedEof)) ==>
                source == [] && Whole() == (Value(), delivered) && !Value().Header? && !Value().Raw?
      ensures r == Some(Error(InvalidData)) ==> Whole().0 == Dead
      ensures r == Some(Pending) || r == Some(Error(Transport)) ==> !steady && Valid()
    {
      hide Feed, At;
      r := None;
      if |prefix| < 16 {
        r := ReadPrefix();
        return;
      }
      match state
      case Header(_) =>
        r := ReadHeader();
      case Content(remaining, padding, command) =>
        if remaining == 0 {
          state := Padding(padding, command);
        } else {
          r := ReadContent();
        }
      case Padding(remaining, command) =>
        if remaining > 0 {
          r := ReadPadding();
        } else if command == COMMAND_CONTINUE {
          state := Header([]);
        } else {
          raw := true;
        }
    }

    /**
      One poll with a buffer of `room` bytes. Data is the next part of the meaning of the wire. When
      the wire is used up the stream ends cleanly in raw mode and inside or before a frame header,
      and with an end-of-file error inside the UUID, content or padding. Content that is already
      there is handed out at once, and when the transport stalls or fails all of it has been.
    */
    method PollRead(room: nat) returns (r: ReadResult)
      requires Valid()
      modifies `delivered, `source, `prefix, `raw, `state, `output
      ensures r.Error? || Valid()
      ensures r.Ready? ==> |r.data| <= room && delivered == old(delivered) + r.data <= Whole().1
      ensures !r.Ready? ==> delivered == old(delivered)
      ensures r == Ready([]) && room > 0 ==>
                source == [] && Whole() == (Value(), delivered) && (Value().Header? || Value().Raw?)
      ensures r == Error(UnexpectedEof) ==>
                source == [] && Whole() == (Value(), delivered) && !Value().Header? && !Value().Raw?
      ensures r == Error(InvalidData) ==> Whole().0 == Dead
      ensures old(output) != [] ==> r == Ready(old(output)[..Min(|old(output)|, room)])
      ensures !r.Ready? ==> output == []
      ensures r == Pending || r == Error(Transport) ==>
                !steady && Valid() && Feed(uuid, Prefix([]), wire[..|wire| - |source|]) == (Value(), delivered)
    {
      hide Feed, At;
      while true
        invariant Valid() && delivered == old(delivered)
        invariant old(output) != [] ==> output == old(output)
        decreases |source|, PartsLeft()
      {
        if output != [] {
          var data := HandOut(room);
          return Ready(data);
        }
        if raw {
          r := ReadRaw(room);
        } else {
          var part := ReadPart();
          if part.None? {
            continue;
          }
          r := part.value;
        }
        assert delivered + output == delivered;
        if !r.Error? || r.kind == Transport {
          AtPrefix(uuid, wire, |wire| - |source|, Value(), delivered);
          AtHere(uuid, wire, |wire| - |source|, Value(), delivered);
        }
        return;
      }
    }
  }

  lemma HeaderCases(h: bytes)
    requires |h| == 5
    ensures Settle(ParseHeader(h)) == if h[0] > 2 then Dead else Settle(Content(U16(h[1], h[2]), U16(h[3], h[4]), h[0]))
  {
  }

  /**
    A reader with any sequence of non-empty buffers on the wire of any calls that end last: it hands
    out the data in order, never sees invalid data, and fails at the end only if no frame was written.
    Over a transport that neither stalls nor fails, with more buffers than bytes, it gets to the end.
  */
  method ReadBack(uuid: bytes, steady: bool, rng: nat -> nat, calls: seq<bytes>, rooms: seq<nat>)
      returns (out: bytes, last: ReadResult)
    requires |uuid| == 16 && RunEndsLast(rng, NewWriter(uuid), calls) && forall n | n in rooms :: n > 0
    ensures out <= Flatten(calls)
    ensures last == Ready([]) ==> out == Flatten(calls)
    ensures last != Error(InvalidData)
    ensures last == Error(UnexpectedEof) ==> EncodeAll(rng, NewWriter(uuid), calls).0.uuid.Some?
    ensures steady && |rooms| > |Flatten(calls)| ==> last == Ready([]) || last == Error(UnexpectedEof)
  {
    hide Feed, EncodeAll, RunEndsLast, Flatten;
    RoundTripExactly(uuid, rng, calls);
    var (w, wire) := EncodeAll(rng, NewWriter(uuid), calls);
    var reader := new VisionReader(uuid, steady, wire);
    out, last := [], Pending;
    for i := 0 to |rooms|
      invariant reader.Valid() && reader.delivered == out <= Flatten(calls) && (steady ==> |out| >= i)
      invariant (last.Ready? || last.Pending?) && last != Ready([])
    {
      assert rooms[i] in rooms;
      last := reader.PollRead(rooms[i]);
      if last.Error? {
        assert last.kind == InvalidData || last.kind == UnexpectedEof || last.kind == Transport;
        return;
      }
      if last.Ready? {
        out := out + last.data;
        if last.data == [] {
          assert last == Ready([]) && out == reader.delivered;
          return;
        }
      }
    }
  }
}
