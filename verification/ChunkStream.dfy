/** The streaming side of the chunker: option defaults, readers that return any fragments, and Stream. */
module ChunkStreams {
  import opened ByteData
  import opened Chunkers
  import opened Int64

  const DEFAULT_MIN_SIZE := 512 * 1024
  const DEFAULT_AVG_SIZE := 1024 * 1024
  const DEFAULT_MAX_SIZE := 4 * 1024 * 1024
  const DEFAULT_SMALL_FILE_THRESHOLD := 5 * 1024 * 1024

  // ---------------------------------------------------------------- options

  lemma {:induction false} DoubledIsPow2(i: nat)
    requires i <= 62
    ensures Doubled(i) == Pow2(i) && Pow2(i) <= MAX_AVERAGE
    decreases i
  {
    Pow2Word();
    Pow2Add(62 - i, i);
    MulAtLeast(Pow2(62 - i), Pow2(i));
    if i > 0 {
      DoubledIsPow2(i - 1);
    }
  }

  /** The doubling loop: p runs through powers of two until it reaches n. */
  method NextPowerOfTwo(n: int) returns (p: int, ghost k: nat)
    requires n <= MAX_AVERAGE
    ensures p == Pow2(k) && k <= 62 && n <= p
    ensures n <= 1 ==> p == 1
    ensures n > 1 ==> p < 2 * n
  {
    k := 0;
    if n <= 1 {
      return 1, 0;
    }
    p := 1;
    Pow2Word();
    while p < n
      invariant k <= 62 && p == Doubled(k) == Pow2(k)
      invariant p < 2 * n
      decreases n - p
    {
      DoubledIsPow2(k);
      if k == 62 {
        assert false;
      }
      DoubledIsPow2(k + 1);
      p := WrapInt64(2 * p);
      k := k + 1;
    }
  }

  lemma DoubledTop(i: nat)
    requires i == 62
    ensures Doubled(i) == MAX_AVERAGE
  {
    Pow2Word();
    DoubledIsPow2(i);
  }

  lemma {:induction false} DoubledStays(i: nat)
    requires i > 62
    ensures i == 63 ==> Doubled(i) == MIN_INT64
    ensures i > 63 ==> Doubled(i) == 0
  {
    hide WrapInt64;
    DoubleWraps();
    if i == 63 {
      DoubledTop(i - 1);
    } else {
      DoubledStays(i - 1);
      assert InInt64(0);
    }
  }

  /** Above 2^62 the doubling loop never ends: the value wraps before it reaches n. */
  lemma DoublingReachesIff(n: int)
    ensures (exists i :: Doubled(i) >= n) <==> n <= MAX_AVERAGE
  {
    forall i: nat ensures Doubled(i) <= MAX_AVERAGE {
      if i <= 62 { DoubledIsPow2(i); } else { DoubledStays(i); }
    }
    var top := 62;
    DoubledTop(top);
    assert Doubled(top) == MAX_AVERAGE;
  }

  /** 512 KiB, 1 MiB, 4 MiB and 5 MiB unless set, each size at least the one before. */
  predicate SizedBy(options: Options, minSize: int, avgSize: int, maxSize: int, threshold: int) {
    && minSize == (if options.minSize <= 0 then 512 * 1024 else options.minSize)
    && avgSize == Max(minSize, if options.avgSize <= 0 then 1024 * 1024 else options.avgSize)
    && maxSize == Max(avgSize, if options.maxSize <= 0 then 4 * 1024 * 1024 else options.maxSize)
    && threshold == if options.smallFileThreshold < 0 then 5 * 1024 * 1024 else options.smallFileThreshold
  }

  /** Missing sizes are filled in and sizes out of order are raised. */
  method Normalised(options: Options) returns (o: Options)
    requires options.minSize <= MAX_AVERAGE && options.avgSize <= MAX_AVERAGE
    ensures 1 <= o.minSize <= o.avgSize <= o.maxSize && o.avgSize <= MAX_AVERAGE && o.smallFileThreshold >= 0
    ensures SizedBy(options, o.minSize, o.avgSize, o.maxSize, o.smallFileThreshold)
    ensures o.engine == "builtin" <==> options.engine == "builtin"
  {
    o := options;
    if o.minSize <= 0 { o := o.(minSize := DEFAULT_MIN_SIZE); }
    if o.avgSize <= 0 { o := o.(avgSize := DEFAULT_AVG_SIZE); }
    if o.maxSize <= 0 { o := o.(maxSize := DEFAULT_MAX_SIZE); }
    if o.smallFileThreshold < 0 { o := o.(smallFileThreshold := DEFAULT_SMALL_FILE_THRESHOLD); }
    assert o.minSize >= 1 && o.avgSize >= 1 && o.maxSize >= 1;
    if o.minSize > o.avgSize { o := o.(avgSize := o.minSize); }
    if o.avgSize > o.maxSize { o := o.(maxSize := o.avgSize); }
    var engine := o.engine;
    if engine == "" { engine := "fastcdc"; }
    if engine != "fastcdc" && engine != "builtin" { engine := "fastcdc"; }
    o := o.(engine := engine);
  }

  /**
   Missing sizes are filled in and sizes out of order raised, so that 1 <= min <= avg <= max; the mask is one less
   than the least power of two that is not below the average.
   */
  method New(options: Options) returns (sp: Splitter, ghost k: nat)
    requires options.minSize <= MAX_AVERAGE && options.avgSize <= MAX_AVERAGE
    ensures 1 <= sp.minSize <= sp.avgSize <= sp.maxSize && sp.smallFileThreshold >= 0
    ensures PowerMask(sp.mask, k) && k <= 62 && sp.avgSize <= sp.mask + 1
    ensures sp.mask + 1 < 2 * sp.avgSize
    ensures SizedBy(options, sp.minSize, sp.avgSize, sp.maxSize, sp.smallFileThreshold)
    ensures sp.engine == Builtin <==> options.engine == "builtin"
  {
    var o := Normalised(options);
    var p;
    p, k := NextPowerOfTwo(o.avgSize);
    var engine := if o.engine == "builtin" then Builtin else FastCDC;
    sp := Splitter(o.minSize, o.avgSize, o.maxSize, o.smallFileThreshold, engine, p - 1);
  }

  // ---------------------------------------------------------------- readers

  datatype Status = More | EndOfFile | Broken

  /** Fragments of any lengths, also empty; the end may come with the last fragment or after it. */
  class Reader {
    var pending: seq<Bytes>
    var endWithData: bool
    const end: Status

    constructor (pending: seq<Bytes>, endWithData: bool, end: Status)
      requires end != More
      ensures this.pending == pending && this.endWithData == endWithData && this.end == end
    {
      this.pending, this.endWithData, this.end := pending, endWithData, end;
    }

    function Remaining(): Bytes
      reads this
    {
      Concat(pending)
    }

    method Read() returns (data: Bytes, status: Status)
      requires end != More
      modifies this`pending
      ensures status == More || status == end
      ensures old(Remaining()) == data + Remaining()
      ensures status != More ==> pending == []
      ensures |pending| < |old(pending)| || status == end
    {
      if |pending| == 0 {
        return [], end;
      }
      ConcatSplit(pending, 1);
      assert pending[..1] == [pending[0]];
      ConcatOne(pending[0]);
      data := pending[0];
      pending := pending[1..];
      status := if |pending| == 0 && endWithData then end else More;
    }
  }

  function SplitEvery(data: Bytes, n: nat): (r: seq<Bytes>)
    requires n > 0
    ensures Concat(r) == data
  {
    if |data| == 0 then []
    else
      var m := if n < |data| then n else |data|;
      var rest := SplitEvery(data[m..], n);
      ConcatAppend([data[..m]], rest);
      ConcatOne(data[..m]);
      [data[..m]] + rest
  }

  /** The callback: it records what it accepts and may refuse unless it is reliable. */
  class Sink {
    var chunks: seq<Chunk>
    const reliable: bool

    constructor (reliable: bool)
      ensures chunks == [] && this.reliable == reliable
    {
      chunks := [];
      this.reliable := reliable;
    }

    method Emit(chunk: Chunk) returns (ok: bool)
      modifies this
      ensures ok ==> chunks == old(chunks) + [chunk]
      ensures !ok ==> chunks == old(chunks)
      ensures reliable ==> ok
    {
      var refuse: bool := *;
      if !reliable && refuse {
        return false;
      }
      chunks := chunks + [chunk];
      return true;
    }
  }

  // ---------------------------------------------------------------- the byte loop

  lemma OneMoreByte(sp: Splitter, gear: Gear, before: Bytes, b: Byte)
    requires NoEarlyCut(sp, gear, before) && (|before| > 0 ==> !CutAt(sp, gear, before))
    ensures NoEarlyCut(sp, gear, before + [b])
    ensures HashOf(gear, before + [b]) == NextHash(gear, HashOf(gear, before), b)
  {
    var current := before + [b];
    assert current[..|current| - 1] == before;
    forall n | 0 < n < |current| ensures !CutAt(sp, gear, current[..n]) {
      assert current[..n] == before[..n];
      if n == |before| { assert before[..n] == before; }
    }
  }

  lemma EmptyStart(sp: Splitter, gear: Gear)
    ensures HashOf(gear, []) == 0 && NoEarlyCut(sp, gear, [])
  {
  }

  lemma AllCutsSnoc(sp: Splitter, gear: Gear, done: seq<Bytes>, piece: Bytes)
    requires AllCuts(sp, gear, done) && |piece| > 0 && CutAt(sp, gear, piece) && NoEarlyCut(sp, gear, piece)
    ensures AllCuts(sp, gear, done + [piece])
    ensures Concat(done + [piece]) == Concat(done) + piece
  {
    assert (done + [piece])[..|done|] == done;
  }

  /** Chunks out so far, as complete pieces of what was consumed. */
  class StreamProcessor {
    const sp: Splitter
    const gear: Gear
    const sink: Sink
    var offset: nat
    var current: Bytes
    var hash: Word
    var emitted: bool
    ghost var pieces: seq<Bytes>

    constructor (sp: Splitter, gear: Gear, sink: Sink)
      requires Sizes(sp) && sink.chunks == []
      ensures this.sp == sp && this.gear == gear && this.sink == sink
      ensures Valid() && Consumed() == []
    {
      this.sp, this.gear, this.sink := sp, gear, sink;
      offset, current, hash, emitted, pieces := 0, [], 0, false, [];
    }

    ghost predicate Valid()
      reads this, sink
    {
      && Sizes(sp)
      && AllCuts(sp, gear, pieces) && NoEarlyCut(sp, gear, current)
      && (|current| > 0 ==> !CutAt(sp, gear, current))
      && hash == HashOf(gear, current)
      && offset == |Concat(pieces)|
      && sink.chunks == WithOffsets(pieces)
      && (emitted <==> pieces != [])
    }

    ghost function Consumed(): Bytes
      reads this
    {
      Concat(pieces) + current
    }

    /** What was handed out is complete chunks of what was consumed. */
    ghost predicate Partial(input: Bytes)
      reads sink
    {
      exists done: seq<Bytes> :: AllCuts(sp, gear, done) && Concat(done) <= input && sink.chunks == WithOffsets(done)
    }

    method EmitCurrent() returns (ok: bool)
      requires |current| > 0
      requires Sizes(sp) && offset == |Concat(pieces)| && sink.chunks == WithOffsets(pieces)
      modifies this, sink
      ensures ok ==> pieces == old(pieces) + [old(current)] && current == [] && hash == 0 && emitted
      ensures ok ==> offset == |Concat(pieces)| && sink.chunks == WithOffsets(pieces)
      ensures !ok ==> sink.chunks == old(sink.chunks)
      ensures sink.reliable ==> ok
    {
      ok := sink.Emit(Chunk(offset, current));
      if !ok {
        return;
      }
      ConcatStep(pieces + [current], |pieces|);
      assert (pieces + [current])[..|pieces|] == pieces;
      assert (pieces + [current])[..|pieces| + 1] == pieces + [current];
      pieces := pieces + [current];
      offset := offset + |current|;
      current := [];
      hash := 0;
      emitted := true;
    }

    method WriteByte(b: Byte) returns (ok: bool)
      requires Valid()
      modifies this, sink
      ensures ok ==> Valid() && Consumed() == old(Consumed()) + [b]
      ensures !ok ==> sink.chunks == WithOffsets(old(pieces)) && AllCuts(sp, gear, old(pieces))
      ensures !ok ==> Concat(old(pieces)) <= old(Consumed())
      ensures sink.reliable ==> ok
    {
      hide AllCuts, NoEarlyCut, WithOffsets, HashOf, NextHash, BitAnd, Concat;
      ghost var before, done := current, pieces;
      current := current + [b];
      hash := NextHash(gear, hash, b);
      OneMoreByte(sp, gear, before, b);
      EmptyStart(sp, gear);
      assert Concat(done) + before + [b] == Concat(done) + current;
      ok := true;
      if |current| >= sp.minSize {
        if |current| >= sp.maxSize || BitAnd(hash, sp.mask) == 0 {
          ghost var piece := current;
          ok := EmitCurrent();
          if ok {
            AllCutsSnoc(sp, gear, done, piece);
          }
        }
      }
    }

    method Write(data: Bytes) returns (ok: bool)
      requires Valid()
      modifies this, sink
      ensures ok ==> Valid() && Consumed() == old(Consumed()) + data
      ensures !ok ==> Partial(old(Consumed()) + data)
      ensures sink.reliable ==> ok
    {
      ok := true;
      for i := 0 to |data|
        invariant ok && Valid() && Consumed() == old(Consumed()) + data[..i]
      {
        ghost var done := pieces;
        ok := WriteByte(data[i]);
        if !ok {
          PrefixTrans(Concat(done), old(Consumed()) + data[..i], old(Consumed()) + data);
          return;
        }
        assert data[..i + 1] == data[..i] + [data[i]];
      }
      assert data[..|data|] == data;
    }

    method Flush() returns (ok: bool)
      requires Valid()
      modifies this, sink
      ensures ok ==>
                sink.chunks == WithOffsets(if |old(Consumed())| == 0 then [[]] else Pieces(sp, gear, old(Consumed())))
      ensures !ok ==> Partial(old(Consumed()))
      ensures sink.reliable ==> ok
    {
      ChainWithTail(sp, gear, pieces, current);
      ghost var done := pieces;
      if |current| == 0 {
        if emitted {
          assert pieces + [] == pieces && |pieces[|pieces| - 1]| > 0;
          assert |Concat(pieces)| > 0 by { ConcatStep(pieces, |pieces| - 1); assert pieces[..|pieces|] == pieces; }
          return true;
        }
        OffsetsContiguous([[]], 0);
        ok := sink.Emit(Chunk(0, []));
      } else {
        ok := EmitCurrent();
      }
      if !ok {
        assert AllCuts(sp, gear, done) && Concat(done) <= old(Consumed()) && sink.chunks == WithOffsets(done);
      }
    }
  }

  lemma PrefixTrans(a: Bytes, b: Bytes, c: Bytes)
    requires a <= b && b <= c
    ensures a <= c
  {
  }

  /** Complete chunks of a prefix are a prefix of the specification's chunks. */
  lemma PartialIsPrefix(sp: Splitter, gear: Gear, done: seq<Bytes>, input: Bytes)
    requires AllCuts(sp, gear, done) && Concat(done) <= input
    ensures WithOffsets(done) <= WithOffsets(Pieces(sp, gear, input))
  {
    var rest := input[|Concat(done)|..];
    assert input == Concat(done) + rest;
    ChainPieces(sp, gear, done, rest);
    WithOffsetsPrefix(done, Pieces(sp, gear, rest));
  }

  // ---------------------------------------------------------------- Stream

  /** Reads until the threshold is exceeded or the input ends. */
  method ReadSmallPrefix(reader: Reader, threshold: int) returns (prefix: Bytes, exceeded: bool, ok: bool)
    requires threshold > 0 && reader.end != More
    modifies reader
    ensures old(reader.Remaining()) == prefix + reader.Remaining()
    ensures exceeded <==> |prefix| > threshold
    ensures ok ==> (exceeded || (reader.pending == [] && reader.end == EndOfFile))
    ensures !ok ==> reader.end == Broken && !exceeded && reader.pending == []
  {
    hide Concat;
    prefix, ok := [], true;
    var status := More;
    while |prefix| <= threshold
      invariant status == More
      invariant old(reader.Remaining()) == prefix + reader.Remaining()
      decreases |reader.pending|
    {
      var data;
      data, status := reader.Read();
      prefix := prefix + data;
      if |prefix| > threshold {
        return prefix, true, true;
      }
      if status == EndOfFile {
        return prefix, false, true;
      }
      if status == Broken {
        return prefix, false, false;
      }
    }
    return prefix, true, true;
  }

  lemma PartialGrows(processor: StreamProcessor, consumed: Bytes, input: Bytes)
    requires processor.Partial(consumed) && consumed <= input && Sizes(processor.sp)
    ensures processor.sink.chunks <= WithOffsets(Pieces(processor.sp, processor.gear, input))
  {
    hide Pieces, AllCuts;
    var sp, gear := processor.sp, processor.gear;
    var done: seq<Bytes> :|
      AllCuts(sp, gear, done) && Concat(done) <= consumed && processor.sink.chunks == WithOffsets(done);
    PrefixTrans(Concat(done), consumed, input);
    PartialIsPrefix(processor.sp, processor.gear, done, input);
  }

  lemma ValidIsPartial(processor: StreamProcessor)
    requires processor.Valid()
    ensures processor.Partial(processor.Consumed())
  {
    hide AllCuts, WithOffsets, NoEarlyCut;
    assert Concat(processor.pieces) <= processor.Consumed();
  }

  method StreamBuiltin(sp: Splitter, gear: Gear, reader: Reader, sink: Sink) returns (ok: bool)
    requires Sizes(sp) && reader.end != More && sink.chunks == []
    modifies reader, sink
    ensures var input := old(reader.Remaining());
            && (ok ==> sink.chunks == WithOffsets(if |input| == 0 then [[]] else Pieces(sp, gear, input)))
            && (!ok ==> sink.chunks <= WithOffsets(Pieces(sp, gear, input)))
    ensures ok ==> reader.end == EndOfFile
    ensures sink.reliable && reader.end == EndOfFile ==> ok
  {
    hide WithOffsets, Pieces, AllCuts, NoEarlyCut, CutAt, HashOf, Concat;
    ghost var input := reader.Remaining();
    var processor := new StreamProcessor(sp, gear, sink);
    var status := More;
    while status == More
      invariant fresh(processor) && processor.sp == sp && processor.gear == gear && processor.sink == sink
      invariant processor.Valid()
      invariant input == processor.Consumed() + reader.Remaining()
      invariant status == More || status == reader.end
      invariant status != More ==> reader.pending == []
      decreases |reader.pending|, status == More
    {
      var data;
      data, status := reader.Read();
      ghost var consumed := processor.Consumed();
      if |data| > 0 {
        ok := processor.Write(data);
        if !ok {
          assert input == consumed + data + reader.Remaining();
          PartialGrows(processor, consumed + data, input);
          return;
        }
      }
      assert input == consumed + data + reader.Remaining();
    }
    assert processor.Consumed() == input;
    if status == EndOfFile {
      ok := processor.Flush();
      if !ok {
        PartialGrows(processor, input, input);
      }
    } else {
      ok := false;
      ValidIsPartial(processor);
      PartialGrows(processor, input, input);
    }
  }

  function Datas(chunks: seq<Chunk>): seq<Bytes> {
    seq(|chunks|, i requires 0 <= i < |chunks| => chunks[i].data)
  }

  lemma {:induction false} DatasOf(pieces: seq<Bytes>)
    ensures Datas(WithOffsets(pieces)) == pieces
    decreases |pieces|
  {
    if |pieces| > 0 {
      DatasOf(pieces[..|pieces| - 1]);
    }
  }

  /** What was handed out: small or empty input whole, and otherwise the input cut by content. */
  ghost predicate HandedOut(sp: Splitter, gear: Gear, input: Bytes, k: nat, pieces: seq<Bytes>) {
    if |input| == 0 || |input| <= sp.smallFileThreshold then pieces == [input]
    else ContentCut(sp.minSize, sp.maxSize, k, gear, input, pieces)
  }

  lemma StreamPiecesHandedOut(sp: Splitter, gear: Gear, input: Bytes)
    requires Sizes(sp)
    ensures forall k :: PowerMask(sp.mask, k) ==> HandedOut(sp, gear, input, k, StreamPieces(sp, gear, input))
    ensures Datas(WithOffsets(StreamPieces(sp, gear, input))) == StreamPieces(sp, gear, input)
  {
    hide ContentCut, Pieces, WithOffsets, Datas;
    DatasOf(StreamPieces(sp, gear, input));
    forall k | PowerMask(sp.mask, k) ensures HandedOut(sp, gear, input, k, StreamPieces(sp, gear, input)) {
      PiecesAreContentCut(sp, gear, input, k);
    }
  }

  /**
   However the reader fragments the input, the callback receives the chunks of the whole-input
   specification; after an error it has received the first of them.
   */
  method Stream(sp: Splitter, gear: Gear, reader: Reader, sink: Sink) returns (ok: bool)
    requires Sizes(sp) && sp.engine == Builtin && reader.end != More && sink.chunks == []
    modifies reader, sink
    ensures ok ==> sink.chunks == WithOffsets(StreamPieces(sp, gear, old(reader.Remaining())))
    ensures !ok ==> sink.chunks <= WithOffsets(StreamPieces(sp, gear, old(reader.Remaining())))
    ensures sink.reliable && reader.end == EndOfFile ==> ok
    ensures ok ==> reader.end == EndOfFile
    ensures ok ==>
              forall k :: PowerMask(sp.mask, k) ==>
                HandedOut(sp, gear, old(reader.Remaining()), k, Datas(sink.chunks))
    ensures ok ==>
              forall i :: 0 <= i < |sink.chunks| ==> sink.chunks[i].offset == |Concat(Datas(sink.chunks)[..i])|
  {
    hide ContentCut, Datas, HandedOut, PowerMask;
    ghost var input := reader.Remaining();
    StreamPiecesHandedOut(sp, gear, input);
    StreamOffsets(StreamPieces(sp, gear, input));
    if sp.smallFileThreshold > 0 {
      var prefix, exceeded, readOk := ReadSmallPrefix(reader, sp.smallFileThreshold);
      if !readOk {
        return false;
      }
      if !exceeded {
        assert prefix == input;
        OffsetsContiguous([prefix], 0);
        ok := sink.Emit(Chunk(0, prefix));
        return;
      }
      var fragments := SplitEvery(prefix, READ_BUFFER);
      ConcatAppend(fragments, reader.pending);
      var joined := new Reader(fragments + reader.pending, reader.endWithData, reader.end);
      ok := StreamBuiltin(sp, gear, joined, sink);
    } else {
      ok := StreamBuiltin(sp, gear, reader, sink);
    }
  }

  lemma StreamOffsets(pieces: seq<Bytes>)
    ensures var chunks := WithOffsets(pieces);
            forall i :: 0 <= i < |chunks| ==> chunks[i].offset == |Concat(pieces[..i])|
  {
    forall i | 0 <= i < |WithOffsets(pieces)| ensures WithOffsets(pieces)[i].offset == |Concat(pieces[..i])| {
      OffsetsContiguous(pieces, i);
    }
  }

  /**
   All chunks of an input under given options: with the sizes and the power of two the options stand for, the
   input is cut by content, in whatever fragments it arrives.
   */
  method Split(options: Options, gear: Gear, reader: Reader)
    returns (ok: bool, chunks: seq<Chunk>, sp: Splitter, ghost k: nat)
    requires options.minSize <= MAX_AVERAGE && options.avgSize <= MAX_AVERAGE
    requires options.engine == "builtin" && reader.end != More
    modifies reader
    ensures ok <==> reader.end == EndOfFile
    ensures SizedBy(options, sp.minSize, sp.avgSize, sp.maxSize, sp.smallFileThreshold)
    ensures sp.avgSize <= Pow2(k) && (k > 0 ==> Pow2(k - 1) < sp.avgSize)
    ensures ok ==> HandedOut(sp, gear, old(reader.Remaining()), k, Datas(chunks))
    ensures ok ==> forall i :: 0 <= i < |chunks| ==> chunks[i].offset == |Concat(Datas(chunks)[..i])|
  {
    hide HandedOut, Datas, Concat;
    sp, k := New(options);
    var sink := new Sink(true);
    ok := Stream(sp, gear, reader, sink);
    chunks := sink.chunks;
  }
}
