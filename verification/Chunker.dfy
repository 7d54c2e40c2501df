/**
 The builtin content-defined chunker: a rolling gear hash over the current chunk, a cut when the
 masked hash is zero or the chunk is full, fed by whatever fragments the reader returns.
 */
module Chunkers {
  import opened ByteData
  import opened Int64

  const MAX_AVERAGE := 0x4000_0000_0000_0000
  const READ_BUFFER := 32 * 1024

  type Word = w: int | 0 <= w < TWO_64

  /** The gear table; nothing below depends on its entries. */
  type Gear = Byte -> Word

  datatype Engine = FastCDC | Builtin

  datatype Options = Options(minSize: int, avgSize: int, maxSize: int, smallFileThreshold: int, engine: string)

  datatype Splitter = Splitter(
    minSize: int, avgSize: int, maxSize: int, smallFileThreshold: int, engine: Engine, mask: nat)

  datatype Chunk = Chunk(offset: nat, data: Bytes)

  // ---------------------------------------------------------------- machine words

  function Pow2(k: nat): (p: nat)
    ensures p > 0
  {
    if k == 0 then 1 else 2 * Pow2(k - 1)
  }

  /** Bitwise and. */
  function BitAnd(x: nat, y: nat): nat
    decreases x
  {
    if x == 0 then 0
    else 2 * BitAnd(x / 2, y / 2) + if x % 2 == 1 && y % 2 == 1 then 1 else 0
  }

  /** Shifting left by one and adding a table entry, both modulo 2^64. */
  function NextHash(gear: Gear, hash: Word, b: Byte): Word {
    ((2 * hash) % TWO_64 + gear(b)) % TWO_64
  }

  function HashOf(gear: Gear, data: Bytes): Word
  {
    if |data| == 0 then 0 else NextHash(gear, HashOf(gear, data[..|data| - 1]), data[|data| - 1])
  }

  /** The value of p after i doublings. */
  function Doubled(i: nat): int { if i == 0 then 1 else WrapInt64(2 * Doubled(i - 1)) }

  // ---------------------------------------------------------------- the whole-input specification

  /** A chunk with this content is complete. */
  predicate CutAt(sp: Splitter, gear: Gear, data: Bytes) {
    |data| >= sp.minSize && (|data| >= sp.maxSize || BitAnd(HashOf(gear, data), sp.mask) == 0)
  }

  function FirstCut(sp: Splitter, gear: Gear, input: Bytes, n: nat): (m: nat)
    requires 0 < n <= |input|
    ensures n <= m <= |input|
    decreases |input| - n
  {
    if n == |input| || CutAt(sp, gear, input[..n]) then n else FirstCut(sp, gear, input, n + 1)
  }

  /** Cut the first chunk, then start afresh on the rest. */
  function Pieces(sp: Splitter, gear: Gear, input: Bytes): seq<Bytes>
    decreases |input|
  {
    if |input| == 0 then []
    else
      var n := FirstCut(sp, gear, input, 1);
      [input[..n]] + Pieces(sp, gear, input[n..])
  }

  /** What Stream hands out for an input, however it is read. */
  function StreamPieces(sp: Splitter, gear: Gear, input: Bytes): seq<Bytes> {
    if sp.smallFileThreshold > 0 && |input| <= sp.smallFileThreshold then [input]
    else if |input| == 0 then [[]]
    else Pieces(sp, gear, input)
  }

  function WithOffsets(pieces: seq<Bytes>): (chunks: seq<Chunk>)
    ensures |chunks| == |pieces|
  {
    if |pieces| == 0 then []
    else
      var before := pieces[..|pieces| - 1];
      WithOffsets(before) + [Chunk(|Concat(before)|, pieces[|pieces| - 1])]
  }

  predicate Sizes(sp: Splitter) { 1 <= sp.minSize <= sp.maxSize }

  predicate PowerMask(mask: nat, k: nat) { mask == Pow2(k) - 1 }

  // ---------------------------------------------------------------- arithmetic

  lemma {:induction false} BitAndMask(x: nat, k: nat)
    ensures BitAnd(x, Pow2(k) - 1) == x % Pow2(k)
    decreases x
  {
    if x != 0 {
      if k == 0 {
        BitAndMask(x / 2, 0);
        assert (Pow2(0) - 1) / 2 == 0;
        assert x % 1 == 0;
      } else {
        var m := Pow2(k - 1);
        BitAndMask(x / 2, k - 1);
        assert (2 * m - 1) / 2 == m - 1 && (2 * m - 1) % 2 == 1;
        HalfMod(x, m);
      }
    }
  }

  lemma HalfMod(x: nat, m: nat)
    requires m > 0
    ensures x % (2 * m) == 2 * ((x / 2) % m) + x % 2
  {
    var h, q, r := x / 2, (x / 2) / m, (x / 2) % m;
    assert h == q * m + r;
    assert x == 2 * h + x % 2;
    assert 2 * (q * m) == q * (2 * m);
    assert x == q * (2 * m) + (2 * r + x % 2);
    UniqueRemainder(x, 2 * m, q, 2 * r + x % 2);
  }

  lemma MulAssoc(a: int, b: int, c: int)
    ensures a * (b * c) == (a * b) * c
  {
  }

  lemma MulDistrib(a: int, b: int, m: int)
    ensures (a + b) * m == a * m + b * m
    ensures (a - b) * m == a * m - b * m
  {
  }

  lemma MulAtLeast(d: int, m: int)
    requires m > 0 && d >= 1
    ensures d * m >= m
  {
    MulDistrib(d - 1, 1, m);
  }

  lemma SameQuotient(q: int, r: int, q': int, r': int, m: int)
    requires 0 <= r < m && 0 <= r' < m && q * m + r == q' * m + r'
    ensures q == q' && r == r'
  {
    MulDistrib(q, q', m);
    MulDistrib(q', q, m);
    if q > q' {
      MulAtLeast(q - q', m);
    } else if q < q' {
      MulAtLeast(q' - q, m);
    }
  }

  lemma UniqueRemainder(x: int, m: int, q: int, r: int)
    requires m > 0 && 0 <= r < m && x == q * m + r
    ensures x % m == r
  {
    SameQuotient(q, r, x / m, x % m, m);
  }

  ghost predicate Congruent(x: int, y: int, m: int) { exists q :: x - y == q * m }

  lemma CongruentMod(x: int, y: int, m: int)
    requires m > 0 && Congruent(x, y, m)
    ensures x % m == y % m
  {
    var q :| x - y == q * m;
    var p := y / m;
    assert y == p * m + y % m;
    MulDistrib(p, q, m);
    UniqueRemainder(x, m, p + q, y % m);
  }

  lemma {:induction false} Pow2Add(i: nat, j: nat)
    ensures Pow2(i + j) == Pow2(i) * Pow2(j)
    decreases i
  {
    if i != 0 {
      Pow2Add(i - 1, j);
      assert Pow2(i + j) == 2 * Pow2(i - 1 + j);
    }
  }

  lemma Pow2Word()
    ensures Pow2(64) == TWO_64 && Pow2(62) == MAX_AVERAGE
  {
    assert Pow2(8) == 0x100;
    Pow2Add(8, 8);
    Pow2Add(16, 16);
    Pow2Add(32, 32);
    Pow2Add(2, 62);
  }

  /** Reducing modulo 2^64 does not disturb congruence modulo a smaller power of two. */
  lemma WrapCongruent(x: int, i: nat)
    requires i <= 64
    ensures Congruent(x % TWO_64, x, Pow2(i))
  {
    Pow2Word();
    Pow2Add(64 - i, i);
    var t := x / TWO_64;
    assert x == t * TWO_64 + x % TWO_64;
    MulAssoc(-t, Pow2(64 - i), Pow2(i));
    assert x % TWO_64 - x == ((-t) * Pow2(64 - i)) * Pow2(i);
  }

  lemma CongruentTrans(x: int, y: int, z: int, m: int)
    requires Congruent(x, y, m) && Congruent(y, z, m)
    ensures Congruent(x, z, m)
  {
    var p :| x - y == p * m;
    var q :| y - z == q * m;
    assert x - z == (p + q) * m by { MulDistrib(p, q, m); }
  }

  lemma CongruentSym(x: int, y: int, m: int)
    requires Congruent(x, y, m)
    ensures Congruent(y, x, m)
  {
    var p :| x - y == p * m;
    assert y - x == (-p) * m;
  }

  lemma NextCongruent(gear: Gear, h: Word, h': Word, b: Byte, i: nat)
    requires i < 64 && Congruent(h, h', Pow2(i))
    ensures Congruent(NextHash(gear, h, b), NextHash(gear, h', b), Pow2(i + 1))
  {
    var m := Pow2(i + 1);
    var q :| h - h' == q * Pow2(i);
    assert (2 * h + gear(b)) - (2 * h' + gear(b)) == q * m by {
      MulAssoc(q, 2, Pow2(i));
      MulAssoc(2, q, Pow2(i));
    }
    NextIsWrapped(gear, h, b, i + 1);
    NextIsWrapped(gear, h', b, i + 1);
    CongruentSym(NextHash(gear, h', b), 2 * h' + gear(b), m);
    CongruentTrans(NextHash(gear, h, b), 2 * h + gear(b), 2 * h' + gear(b), m);
    CongruentTrans(NextHash(gear, h, b), 2 * h' + gear(b), NextHash(gear, h', b), m);
  }

  lemma NextIsWrapped(gear: Gear, h: Word, b: Byte, i: nat)
    requires i <= 64
    ensures Congruent(NextHash(gear, h, b), 2 * h + gear(b), Pow2(i))
  {
    assert NextHash(gear, h, b) == (2 * h + gear(b)) % TWO_64;
    WrapCongruent(2 * h + gear(b), i);
  }

  // ---------------------------------------------------------------- the mask test is local

  /** After w bytes in common, two hashes agree in their low |w| bits. */
  lemma {:induction false} HashesConverge(gear: Gear, a: Bytes, b: Bytes, w: Bytes)
    requires |w| <= 64
    ensures Congruent(HashOf(gear, a + w), HashOf(gear, b + w), Pow2(|w|))
    decreases |w|
  {
    if |w| == 0 {
      var d := HashOf(gear, a + w) - HashOf(gear, b + w);
      assert d == d * Pow2(0);
    } else {
      var w' := w[..|w| - 1];
      HashesConverge(gear, a, b, w');
      assert (a + w)[..|a + w| - 1] == a + w' && (b + w)[..|b + w| - 1] == b + w';
      NextCongruent(gear, HashOf(gear, a + w'), HashOf(gear, b + w'), w[|w| - 1], |w'|);
    }
  }

  /** Once k bytes have entered both chunks, the test sees only the last k bytes. */
  lemma MaskTestIsLocal(sp: Splitter, gear: Gear, a: Bytes, b: Bytes, w: Bytes)
    requires PowerMask(sp.mask, |w|) && |w| <= 64
    ensures BitAnd(HashOf(gear, a + w), sp.mask) == BitAnd(HashOf(gear, b + w), sp.mask)
  {
    HashesConverge(gear, a, b, w);
    CongruentMod(HashOf(gear, a + w), HashOf(gear, b + w), Pow2(|w|));
    BitAndMask(HashOf(gear, a + w), |w|);
    BitAndMask(HashOf(gear, b + w), |w|);
  }

  // ---------------------------------------------------------------- the specification partitions the input

  lemma {:induction false} FirstCutIsFirst(sp: Splitter, gear: Gear, input: Bytes, n: nat)
    requires 0 < n <= |input|
    ensures var m := FirstCut(sp, gear, input, n);
            && (m < |input| ==> CutAt(sp, gear, input[..m]))
            && forall i :: n <= i < m ==> !CutAt(sp, gear, input[..i])
    decreases |input| - n
  {
    if n < |input| && !CutAt(sp, gear, input[..n]) {
      FirstCutIsFirst(sp, gear, input, n + 1);
    }
  }

  lemma {:induction false} PiecesPartition(sp: Splitter, gear: Gear, input: Bytes)
    ensures Concat(Pieces(sp, gear, input)) == input
    decreases |input|
  {
    if |input| != 0 {
      var n := FirstCut(sp, gear, input, 1);
      PiecesPartition(sp, gear, input[n..]);
      ConcatAppend([input[..n]], Pieces(sp, gear, input[n..]));
      ConcatOne(input[..n]);
    }
  }

  /** Every chunk but the last has a size in [min, max]; the last is nonempty and at most max. */
  lemma {:induction false} PieceSizes(sp: Splitter, gear: Gear, input: Bytes, i: nat)
    requires Sizes(sp) && i < |Pieces(sp, gear, input)|
    ensures var pieces := Pieces(sp, gear, input);
            && 1 <= |pieces[i]| <= sp.maxSize
            && (i < |pieces| - 1 ==> |pieces[i]| >= sp.minSize)
    decreases |input|
  {
    var n := FirstCut(sp, gear, input, 1);
    FirstCutIsFirst(sp, gear, input, 1);
    if n > sp.maxSize {
      assert CutAt(sp, gear, input[..sp.maxSize]);
      assert false;
    }
    if i > 0 {
      PieceSizes(sp, gear, input[n..], i - 1);
    } else if n == |input| {
      assert input[n..] == [];
    }
  }

  /** Offsets are contiguous: each chunk starts where the chunks before it end. */
  lemma {:induction false} OffsetsContiguous(pieces: seq<Bytes>, i: nat)
    requires i < |pieces|
    ensures WithOffsets(pieces)[i] == Chunk(|Concat(pieces[..i])|, pieces[i])
    decreases |pieces|
  {
    if i < |pieces| - 1 {
      OffsetsContiguous(pieces[..|pieces| - 1], i);
      assert pieces[..|pieces| - 1][..i] == pieces[..i];
    }
  }

  /** After any cut the remaining chunks depend only on the remaining bytes. */
  lemma {:induction false} RestartAfterCut(sp: Splitter, gear: Gear, input: Bytes, i: nat, rest: Bytes)
    requires i <= |Pieces(sp, gear, input)|
    requires Concat(Pieces(sp, gear, input)[..i]) + rest == input
    ensures Pieces(sp, gear, input)[i..] == Pieces(sp, gear, rest)
    decreases |input|
  {
    var pieces := Pieces(sp, gear, input);
    if i == 0 {
      assert rest == input;
    } else {
      var n := FirstCut(sp, gear, input, 1);
      var tail := Pieces(sp, gear, input[n..]);
      assert pieces[..i] == [input[..n]] + tail[..i - 1];
      ConcatAppend([input[..n]], tail[..i - 1]);
      ConcatOne(input[..n]);
      assert Concat(tail[..i - 1]) + rest == input[n..];
      RestartAfterCut(sp, gear, input[n..], i - 1, rest);
      assert pieces[i..] == tail[i - 1..];
    }
  }

  /** Two inputs that share a suffix and are both cut at its start chunk the suffix identically. */
  lemma SharedSuffixSharesChunks(sp: Splitter, gear: Gear, a: Bytes, b: Bytes, suffix: Bytes, i: nat, j: nat)
    requires i <= |Pieces(sp, gear, a + suffix)| && j <= |Pieces(sp, gear, b + suffix)|
    requires Concat(Pieces(sp, gear, a + suffix)[..i]) == a && Concat(Pieces(sp, gear, b + suffix)[..j]) == b
    ensures Pieces(sp, gear, a + suffix)[i..] == Pieces(sp, gear, b + suffix)[j..]
  {
    RestartAfterCut(sp, gear, a + suffix, i, suffix);
    RestartAfterCut(sp, gear, b + suffix, j, suffix);
  }

  // ---------------------------------------------------------------- chains of cuts

  /** No proper nonempty prefix is complete. */
  ghost predicate NoEarlyCut(sp: Splitter, gear: Gear, data: Bytes) {
    forall n :: 0 < n < |data| ==> !CutAt(sp, gear, data[..n])
  }

  ghost predicate AllCuts(sp: Splitter, gear: Gear, pieces: seq<Bytes>) {
    forall i :: 0 <= i < |pieces| ==> |pieces[i]| > 0 && CutAt(sp, gear, pieces[i]) && NoEarlyCut(sp, gear, pieces[i])
  }

  lemma {:induction false} FirstCutOfPrefix(sp: Splitter, gear: Gear, piece: Bytes, rest: Bytes, n: nat)
    requires 0 < n <= |piece| && CutAt(sp, gear, piece) && NoEarlyCut(sp, gear, piece)
    ensures FirstCut(sp, gear, piece + rest, n) == |piece|
    decreases |piece| - n
  {
    assert (piece + rest)[..n] == piece[..n];
    if n < |piece| {
      FirstCutOfPrefix(sp, gear, piece, rest, n + 1);
    } else {
      assert piece[..n] == piece;
    }
  }

  /** Complete chunks at the front of an input are the specification's chunks. */
  lemma {:induction false} ChainPieces(sp: Splitter, gear: Gear, pieces: seq<Bytes>, rest: Bytes)
    requires AllCuts(sp, gear, pieces)
    ensures Pieces(sp, gear, Concat(pieces) + rest) == pieces + Pieces(sp, gear, rest)
    decreases |pieces|
  {
    hide NoEarlyCut, CutAt, FirstCut;
    if |pieces| == 0 {
      assert Concat(pieces) + rest == rest;
    } else {
      var first, others := pieces[0], pieces[1..];
      ChainPieces(sp, gear, others, rest);
      assert pieces == [first] + others;
      ConcatAppend([first], others);
      ConcatOne(first);
      var input := Concat(pieces) + rest;
      assert input == first + (Concat(others) + rest);
      FirstCutOfPrefix(sp, gear, first, Concat(others) + rest, 1);
      assert input[..|first|] == first && input[|first|..] == Concat(others) + rest;
      assert pieces + Pieces(sp, gear, rest) == [first] + (others + Pieces(sp, gear, rest));
    }
  }

  lemma {:induction false} NoCutMeansLast(sp: Splitter, gear: Gear, data: Bytes, n: nat)
    requires 0 < n <= |data| && NoEarlyCut(sp, gear, data)
    ensures FirstCut(sp, gear, data, n) == |data|
    decreases |data| - n
  {
    if n < |data| {
      NoCutMeansLast(sp, gear, data, n + 1);
    }
  }

  /** Complete chunks followed by an incomplete one. */
  lemma ChainWithTail(sp: Splitter, gear: Gear, pieces: seq<Bytes>, current: Bytes)
    requires AllCuts(sp, gear, pieces) && NoEarlyCut(sp, gear, current)
    ensures Pieces(sp, gear, Concat(pieces) + current) == pieces + if |current| == 0 then [] else [current]
  {
    ChainPieces(sp, gear, pieces, current);
    if |current| != 0 {
      NoCutMeansLast(sp, gear, current, 1);
      assert current[..|current|] == current && current[|current|..] == [];
    }
  }

  lemma WithOffsetsPrefix(pieces: seq<Bytes>, more: seq<Bytes>)
    ensures WithOffsets(pieces) <= WithOffsets(pieces + more)
    decreases |more|
  {
    if |more| == 0 {
      assert pieces + more == pieces;
    } else {
      WithOffsetsPrefix(pieces, more[..|more| - 1]);
      assert (pieces + more)[..|pieces + more| - 1] == pieces + more[..|more| - 1];
    }
  }

  // ---------------------------------------------------------------- where the content puts the cuts

  ghost predicate LowBitsZero(gear: Gear, data: Bytes, k: nat) { HashOf(gear, data) % Pow2(k) == 0 }

  /** Full, or the low k bits of the hash of all its bytes are zero. */
  ghost predicate Complete(minSize: int, maxSize: int, k: nat, gear: Gear, piece: Bytes) {
    |piece| >= minSize && (|piece| == maxSize || LowBitsZero(gear, piece, k))
  }

  /** From the least size on, the first n bytes are neither full nor have such a hash. */
  ghost predicate NotYet(minSize: int, maxSize: int, k: nat, gear: Gear, piece: Bytes, n: nat)
    requires n <= |piece|
  {
    minSize <= n ==> n < maxSize && !LowBitsZero(gear, piece[..n], k)
  }

  /** No shorter piece would have been complete. */
  ghost predicate NotEarlier(minSize: int, maxSize: int, k: nat, gear: Gear, piece: Bytes) {
    forall n: nat :: n < |piece| ==> NotYet(minSize, maxSize, k, gear, piece, n)
  }

  /** The input cut wherever size and content say so, and nowhere else. */
  ghost predicate ContentCut(minSize: int, maxSize: int, k: nat, gear: Gear, input: Bytes, pieces: seq<Bytes>) {
    && Concat(pieces) == input
    && (forall i :: 0 <= i < |pieces| ==> |pieces[i]| > 0 && NotEarlier(minSize, maxSize, k, gear, pieces[i]))
    && (forall i :: 0 <= i < |pieces| - 1 ==> Complete(minSize, maxSize, k, gear, pieces[i]))
  }

  lemma CutAtContent(sp: Splitter, gear: Gear, data: Bytes, k: nat)
    requires PowerMask(sp.mask, k)
    ensures CutAt(sp, gear, data) <==>
              |data| >= sp.minSize && (|data| >= sp.maxSize || LowBitsZero(gear, data, k))
  {
    BitAndMask(HashOf(gear, data), k);
  }

  lemma FirstPiece(sp: Splitter, gear: Gear, input: Bytes, k: nat)
    requires Sizes(sp) && PowerMask(sp.mask, k) && |input| > 0
    ensures var n := FirstCut(sp, gear, input, 1);
            && NotEarlier(sp.minSize, sp.maxSize, k, gear, input[..n])
            && (n < |input| ==> Complete(sp.minSize, sp.maxSize, k, gear, input[..n]))
  {
    hide CutAt, LowBitsZero, NotEarlier;
    var n := FirstCut(sp, gear, input, 1);
    var piece := input[..n];
    FirstCutIsFirst(sp, gear, input, 1);
    forall m | 0 < m < |piece| ensures !CutAt(sp, gear, piece[..m]) {
      assert piece[..m] == input[..m];
    }
    NoCutNotEarlier(sp, gear, piece, k);
    CutAtContent(sp, gear, piece, k);
    NotEarlierFits(sp.minSize, sp.maxSize, k, gear, piece);
  }

  lemma NoCutNotEarlier(sp: Splitter, gear: Gear, piece: Bytes, k: nat)
    requires Sizes(sp) && PowerMask(sp.mask, k) && NoEarlyCut(sp, gear, piece)
    ensures NotEarlier(sp.minSize, sp.maxSize, k, gear, piece)
  {
    hide CutAt;
    forall m: nat | m < |piece| ensures NotYet(sp.minSize, sp.maxSize, k, gear, piece, m) {
      CutAtContent(sp, gear, piece[..m], k);
      assert m > 0 ==> !CutAt(sp, gear, piece[..m]);
    }
  }

  lemma NotEarlierFits(minSize: int, maxSize: int, k: nat, gear: Gear, piece: Bytes)
    requires 1 <= minSize <= maxSize && NotEarlier(minSize, maxSize, k, gear, piece)
    ensures |piece| <= maxSize
  {
    var n := if |piece| > maxSize then maxSize else 0;
    assert n < |piece| ==> NotYet(minSize, maxSize, k, gear, piece, n);
  }

  /** The specification's chunks are the input cut by content. */
  lemma {:induction false} PiecesAreContentCut(sp: Splitter, gear: Gear, input: Bytes, k: nat)
    requires Sizes(sp) && PowerMask(sp.mask, k)
    ensures ContentCut(sp.minSize, sp.maxSize, k, gear, input, Pieces(sp, gear, input))
    decreases |input|
  {
    hide Complete, NotEarlier, FirstCut;
    PiecesPartition(sp, gear, input);
    if |input| != 0 {
      var n := FirstCut(sp, gear, input, 1);
      var rest := Pieces(sp, gear, input[n..]);
      FirstPiece(sp, gear, input, k);
      PiecesAreContentCut(sp, gear, input[n..], k);
      assert Pieces(sp, gear, input) == [input[..n]] + rest;
      if n == |input| {
        assert input[n..] == [] && rest == [];
      }
    }
  }

  /**
   Every chunk but the last is full or ends where the low k bits of its hash are zero; none could have ended
   before, and none is larger than the maximum.
   */
  lemma CutsFollowContent(sp: Splitter, gear: Gear, input: Bytes, k: nat, i: nat)
    requires Sizes(sp) && PowerMask(sp.mask, k) && i < |Pieces(sp, gear, input)|
    ensures var pieces := Pieces(sp, gear, input);
            && (i < |pieces| - 1 ==>
                  |pieces[i]| >= sp.minSize
                  && (|pieces[i]| == sp.maxSize || HashOf(gear, pieces[i]) % Pow2(k) == 0))
            && |pieces[i]| <= sp.maxSize
            && forall n :: sp.minSize <= n < |pieces[i]| ==> HashOf(gear, pieces[i][..n]) % Pow2(k) != 0
  {
    var pieces := Pieces(sp, gear, input);
    PiecesAreContentCut(sp, gear, input, k);
    assert NotEarlier(sp.minSize, sp.maxSize, k, gear, pieces[i]);
    NotEarlierFits(sp.minSize, sp.maxSize, k, gear, pieces[i]);
    forall n | sp.minSize <= n < |pieces[i]| ensures HashOf(gear, pieces[i][..n]) % Pow2(k) != 0 {
      assert NotYet(sp.minSize, sp.maxSize, k, gear, pieces[i], n);
    }
  }

  /** Taking the first piece off. */
  lemma ContentCutTail(minSize: int, maxSize: int, k: nat, gear: Gear, input: Bytes, pieces: seq<Bytes>)
    requires ContentCut(minSize, maxSize, k, gear, input, pieces) && |pieces| > 0
    ensures input == pieces[0] + Concat(pieces[1..])
    ensures ContentCut(minSize, maxSize, k, gear, Concat(pieces[1..]), pieces[1..])
    ensures |pieces| > 1 ==> Complete(minSize, maxSize, k, gear, pieces[0]) && |Concat(pieces[1..])| > 0
  {
    hide Complete, NotEarlier, Concat;
    ConcatSplit(pieces, 1);
    assert pieces[..1] == [pieces[0]];
    ConcatOne(pieces[0]);
    if |pieces| > 1 {
      ConcatSplit(pieces[1..], 1);
      assert pieces[1..][..1] == [pieces[1]];
      ConcatOne(pieces[1]);
    }
  }

  /** A complete piece of the input is no proper beginning of another. */
  lemma FirstNotShorter(minSize: int, maxSize: int, k: nat, gear: Gear, input: Bytes, p: Bytes, q: Bytes)
    requires 1 <= minSize <= maxSize && p <= input && q <= input
    requires p == input || Complete(minSize, maxSize, k, gear, p)
    requires NotEarlier(minSize, maxSize, k, gear, q)
    ensures |q| <= |p|
  {
    var common := if |p| <= |q| then |p| else |q|;
    assert p[..common] == input[..common] == q[..common];
    assert p[..|p|] == p;
    assert common < |q| ==> NotYet(minSize, maxSize, k, gear, q, common);
  }

  /** Content decides: there is one way to cut an input like this. */
  lemma {:induction false} ContentCutUnique(minSize: int, maxSize: int, k: nat, gear: Gear, input: Bytes,
                                            p: seq<Bytes>, q: seq<Bytes>)
    requires 1 <= minSize <= maxSize
    requires ContentCut(minSize, maxSize, k, gear, input, p) && ContentCut(minSize, maxSize, k, gear, input, q)
    ensures p == q
    decreases |p|
  {
    hide Complete, NotEarlier;
    if |p| > 0 {
      ContentCutTail(minSize, maxSize, k, gear, input, p);
    }
    if |q| > 0 {
      ContentCutTail(minSize, maxSize, k, gear, input, q);
    }
    if |p| > 0 && |q| > 0 {
      assert |p| == 1 ==> p[0] == input;
      assert |q| == 1 ==> q[0] == input;
      FirstNotShorter(minSize, maxSize, k, gear, input, p[0], q[0]);
      FirstNotShorter(minSize, maxSize, k, gear, input, q[0], p[0]);
      assert p[0] == input[..|p[0]|] == q[0];
      assert Concat(p[1..]) == input[|p[0]|..] == Concat(q[1..]);
      ContentCutUnique(minSize, maxSize, k, gear, Concat(p[1..]), p[1..], q[1..]);
      assert p == [p[0]] + p[1..] && q == [q[0]] + q[1..];
    }
  }

  // ---------------------------------------------------------------- the hash in closed form

  lemma CongruentScale(x: int, y: int, g: int, m: int)
    requires Congruent(x, y, m)
    ensures Congruent(2 * x + g, 2 * y + g, m)
  {
    var q :| x - y == q * m;
    assert (2 * x + g) - (2 * y + g) == (2 * q) * m by { MulAssoc(2, q, m); }
  }

  lemma {:induction false} HashAppendCongruent(gear: Gear, a: Bytes, b: Bytes)
    ensures Congruent(HashOf(gear, a + b), HashOf(gear, a) * Pow2(|b|) + HashOf(gear, b), TWO_64)
    decreases |b|
  {
    Pow2Word();
    var h := HashOf(gear, a);
    if |b| == 0 {
      assert a + b == a;
      assert HashOf(gear, a + b) - (h * Pow2(0) + 0) == 0 * TWO_64;
    } else {
      var b', x := b[..|b| - 1], b[|b| - 1];
      HashAppendCongruent(gear, a, b');
      assert (a + b)[..|a + b| - 1] == a + b';
      var before, next := h * Pow2(|b'|) + HashOf(gear, b'), h * Pow2(|b|) + HashOf(gear, b);
      NextIsWrapped(gear, HashOf(gear, a + b'), x, 64);
      CongruentScale(HashOf(gear, a + b'), before, gear(x), TWO_64);
      CongruentTrans(HashOf(gear, a + b), 2 * HashOf(gear, a + b') + gear(x), 2 * before + gear(x), TWO_64);
      NextIsWrapped(gear, HashOf(gear, b'), x, 64);
      CongruentSym(HashOf(gear, b), 2 * HashOf(gear, b') + gear(x), TWO_64);
      assert h * Pow2(|b|) == 2 * (h * Pow2(|b'|)) by { MulAssoc(h, 2, Pow2(|b'|)); MulAssoc(2, h, Pow2(|b'|)); }
      CongruentShift(2 * HashOf(gear, b') + gear(x), HashOf(gear, b), h * Pow2(|b|), TWO_64);
      CongruentTrans(HashOf(gear, a + b), 2 * before + gear(x), next, TWO_64);
    }
  }

  lemma WordMod(w: Word)
    ensures w % TWO_64 == w
  {
  }

  lemma CongruentShift(x: int, y: int, c: int, m: int)
    requires Congruent(x, y, m)
    ensures Congruent(c + x, c + y, m)
  {
    var q :| x - y == q * m;
    assert (c + x) - (c + y) == q * m;
  }

  /**
   The hash of one byte is its table entry, and appending bytes shifts what was there: the hash of a string is
   the sum, modulo 2^64, of its entries, each times two to the number of bytes after it.
   */
  lemma HashAppend(gear: Gear, a: Bytes, b: Bytes, x: Byte)
    ensures HashOf(gear, []) == 0 && HashOf(gear, [x]) == gear(x)
    ensures HashOf(gear, a + b) == (HashOf(gear, a) * Pow2(|b|) + HashOf(gear, b)) % TWO_64
  {
    assert [x][..0] == [];
    assert HashOf(gear, a + b) == (HashOf(gear, a) * Pow2(|b|) + HashOf(gear, b)) % TWO_64 by {
      hide HashOf, Pow2;
      HashAppendCongruent(gear, a, b);
      CongruentMod(HashOf(gear, a + b), HashOf(gear, a) * Pow2(|b|) + HashOf(gear, b), TWO_64);
      WordMod(HashOf(gear, a + b));
    }
  }
}
