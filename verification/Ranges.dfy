/** Parsing the Range header of a single byte range (sections 14.1.2 and 14.4 of RFC 9110). */
module Ranges {
  import opened Int64
  import opened Metadata
  import opened ObjectService
  import opened Text

  datatype RangeError =
    | OnlyBytes | Empty | Multiple | NoDash | NotSatisfiable | BadSuffix | BadStart | BadEnd | EndBeforeStart

  datatype RangeResult = Ok(range: ByteRange) | Err(error: RangeError)

  // ---------------------------------------------------------------- numbers

  predicate IsDigit(c: char) { '0' <= c <= '9' }

  predicate Digits(s: string) { |s| > 0 && forall c :: c in s ==> IsDigit(c) }

  function Value(s: string): (n: int)
    requires forall c :: c in s ==> IsDigit(c)
    ensures n >= 0
  {
    if |s| == 0 then 0
    else
      assert s[|s| - 1] in s && IsDigit(s[|s| - 1]);
      10 * Value(s[..|s| - 1]) + (s[|s| - 1] as int - '0' as int)
  }

  /** strconv.ParseInt in base 10 and 64 bits. */
  function ParseInt(s: string): Option<int> {
    var negative := |s| > 0 && s[0] == '-';
    var digits := if |s| > 0 && (s[0] == '-' || s[0] == '+') then s[1..] else s;
    if !Digits(digits) then None
    else
      var n := if negative then -Value(digits) else Value(digits);
      if InInt64(n) then Some(n) else None
  }

  const PREFIX := "bytes="

  datatype Fields = Fields(first: string, last: string) | Malformed(error: RangeError)

  /** Everything up to the two trimmed numbers around the first dash. */
  function SplitFields(header: string): Fields {
    if !(PREFIX <= header) then Malformed(OnlyBytes) else
    var spec := TrimSpace(header[|PREFIX|..]);
    if spec == "" then Malformed(Empty) else
    if ',' in spec then Malformed(Multiple) else
    match Cut(spec, '-')
    case None => Malformed(NoDash)
    case Some((startRaw, endRaw)) => Fields(TrimSpace(startRaw), TrimSpace(endRaw))
  }

  function ParseSingleRange(header: string, size: int): RangeResult {
    match SplitFields(header)
    case Malformed(error) => Err(error)
    case Fields(startRaw, endRaw) => DecideRange(startRaw, endRaw, size)
  }

  function DecideRange(startRaw: string, endRaw: string, size: int): RangeResult {
    if startRaw == "" && endRaw == "" then Err(Empty) else
    if size <= 0 then Err(NotSatisfiable) else
    if startRaw == "" then
      var suffixLength := ParseInt(endRaw);
      if suffixLength.None? || suffixLength.value <= 0 then Err(BadSuffix) else
      Ok(ByteRange(if size - suffixLength.value < 0 then 0 else size - suffixLength.value, size - 1))
    else
      var start := ParseInt(startRaw);
      if start.None? || start.value < 0 then Err(BadStart) else
      if start.value >= size then Err(NotSatisfiable) else
      if endRaw == "" then Ok(ByteRange(start.value, size - 1)) else
      var end := ParseInt(endRaw);
      if end.None? || end.value < 0 then Err(BadEnd) else
      if end.value < start.value then Err(EndBeforeStart) else
      Ok(ByteRange(start.value, if end.value >= size then size - 1 else end.value))
  }

  // ---------------------------------------------------------------- what a header means

  /** bytes= first - last, with optional white space around the two numbers. */
  datatype Parts = Parts(w0: string, first: string, w1: string, w2: string, last: string, w3: string)

  function Render(p: Parts): string {
    PREFIX + (p.w0 + p.first + p.w1 + "-" + p.w2 + p.last + p.w3)
  }

  predicate WellFormed(p: Parts) {
    && Spaces(p.w0) && Spaces(p.w1) && Spaces(p.w2) && Spaces(p.w3)
    && Tight(p.first) && Tight(p.last) && '-' !in p.first
    && ',' !in p.first && ',' !in p.last
  }

  /** An optional sign and decimal digits that fit into 64 bits. */
  ghost predicate Numeral(s: string, n: int) {
    InInt64(n) && exists digits :: SignedDigits(s, digits, n)
  }

  predicate SignedDigits(s: string, digits: string, n: int) {
    Digits(digits) &&
    (|| (s == digits && n == Value(digits))
     || (s == "+" + digits && n == Value(digits))
     || (s == "-" + digits && n == -Value(digits)))
  }

  ghost predicate MeansSuffix(last: string, size: int, range: ByteRange) {
    exists n :: Numeral(last, n) && n > 0 && range == ByteRange(Max(0, size - n), size - 1)
  }

  ghost predicate MeansFrom(s: int, last: string, size: int, range: ByteRange) {
    || (last == "" && range == ByteRange(s, size - 1))
    || exists e :: Numeral(last, e) && s <= e && range == ByteRange(s, Min(e, size - 1))
  }

  /** What two numbers around a dash stand for in an object of this size. */
  ghost predicate Means(first: string, last: string, size: int, range: ByteRange) {
    || (first == "" && MeansSuffix(last, size, range))
    || exists s :: Numeral(first, s) && 0 <= s < size && MeansFrom(s, last, size, range)
  }

  // ---------------------------------------------------------------- lemmas

  lemma NumberChars()
    ensures forall c :: IsDigit(c) || c == '+' || c == '-' ==> !IsSpace(c) && c != ','
  {
  }

  lemma NumeralParses(s: string, n: int)
    requires Numeral(s, n)
    ensures ParseInt(s) == Some(n) && s != "" && ',' !in s && Tight(s)
  {
    hide Value, IsSpace, IsDigit;
    NumberChars();
    var digits :| SignedDigits(s, digits, n);
    assert digits[0] in digits && digits[|digits| - 1] in digits;
    assert digits[0] != '+' && digits[0] != '-' by { DigitsUnsigned(digits); }
    if s != digits {
      assert s[1..] == digits;
    }
  }

  lemma DigitsUnsigned(s: string)
    requires Digits(s)
    ensures s[0] != '+' && s[0] != '-' && IsDigit(s[0])
    ensures '-' !in s && ',' !in s
  {
    assert s[0] in s;
  }

  lemma ParsedIsNumeral(s: string)
    requires ParseInt(s).Some?
    ensures Numeral(s, ParseInt(s).value)
  {
    var digits := if s[0] == '-' || s[0] == '+' then s[1..] else s;
    assert SignedDigits(s, digits, ParseInt(s).value);
  }

  /** Parsing a numeral is exactly reading an optional sign and digits within 64 bits. */
  lemma ParseIntExact(s: string, n: int)
    ensures ParseInt(s) == Some(n) <==> Numeral(s, n)
    ensures Numeral(s, n) ==> s != ""
  {
    if ParseInt(s) == Some(n) {
      ParsedIsNumeral(s);
    }
    if Numeral(s, n) {
      NumeralParses(s, n);
    }
  }

  /** An accepted range lies inside the object. */
  lemma AcceptedRangeInside(header: string, size: int)
    ensures ParseSingleRange(header, size).Ok? ==>
              var r := ParseSingleRange(header, size).range; 0 <= r.start <= r.end < size
  {
  }

  /** The decision on the two numbers is exactly their meaning. */
  lemma DecidesExactly(first: string, last: string, size: int, range: ByteRange)
    ensures DecideRange(first, last, size) == Ok(range) <==> size > 0 && Means(first, last, size, range)
  {
    hide Numeral, ParseInt;
    forall s: string, n ensures ParseInt(s) == Some(n) <==> Numeral(s, n) {
      ParseIntExact(s, n);
    }
    forall n ensures !Numeral("", n) {
      ParseIntExact("", n);
    }
    if DecideRange(first, last, size) == Ok(range) && first != "" {
      assert MeansFrom(ParseInt(first).value, last, size, range);
    }
  }

  /** Splitting and trimming around the dash. */
  lemma FieldsAround(lead: string, left: string, right: string, tail: string)
    requires Spaces(lead) && Spaces(tail) && Tight(left + "-" + right)
    requires '-' !in left && ',' !in left && ',' !in right
    ensures SplitFields(PREFIX + (lead + (left + "-" + right) + tail)) == Fields(TrimSpace(left), TrimSpace(right))
  {
    var middle := left + "-" + right;
    var header := PREFIX + (lead + middle + tail);
    assert header[|PREFIX|..] == lead + middle + tail;
    TrimSpaceOf(lead, middle, tail);
    assert middle == left + ['-'] + right;
    CutOf(left, right, '-');
    assert '-' in middle && ',' !in middle;
  }

  /** The parser works with exactly the two numbers of a well-formed header. */
  lemma FieldsOf(p: Parts)
    requires WellFormed(p)
    ensures SplitFields(Render(p)) == Fields(p.first, p.last)
  {
    hide TrimSpace, Cut, SplitFields, IsSpace;
    assert !IsSpace('-') by { NumberChars(); }
    // White space next to a missing number is trimmed with the ends.
    var lead, left := p.w0, p.first + p.w1;
    if p.first == "" {
      lead, left := p.w0 + p.w1, "";
    }
    var tail, right := p.w3, p.w2 + p.last;
    if p.last == "" {
      tail, right := p.w2 + p.w3, "";
    }
    assert p.w0 + p.first + p.w1 == lead + left;
    assert p.w2 + p.last + p.w3 == right + tail;
    assert Render(p) == PREFIX + (lead + (left + "-" + right) + tail);
    SideTrims(p);
    FieldsAround(lead, left, right, tail);
  }

  lemma SideTrims(p: Parts)
    requires WellFormed(p)
    ensures TrimSpace(p.first + p.w1) == p.first && TrimSpace(p.w2 + p.last) == p.last
    ensures '-' !in p.first + p.w1 && ',' !in p.first + p.w1 && ',' !in p.w2 + p.last
    ensures TrimSpace("") == ""
  {
    assert "" + p.first + p.w1 == p.first + p.w1;
    TrimSpaceOf("", p.first, p.w1);
    assert p.w2 + p.last + "" == p.w2 + p.last;
    TrimSpaceOf(p.w2, p.last, "");
  }

  lemma Regroup(a: string, b: string, c: string, d: string, e: string, f: string, g: string, h: string)
    ensures a + (b + c + d + "-" + (e + f + g)) + h == (a + b) + c + d + "-" + e + f + (g + h)
  {
  }

  /** The parts of a header the parser gets as far as splitting. */
  lemma PartsOf(header: string) returns (p: Parts)
    requires SplitFields(header).Fields?
    ensures Render(p) == header && WellFormed(p)
    ensures SplitFields(header) == Fields(p.first, p.last)
  {
    var body := header[|PREFIX|..];
    var spec := TrimSpace(body);
    var lead, tail := TrimSpaceShape(body);
    CutShape(spec, '-');
    var left, right := Cut(spec, '-').value.0, Cut(spec, '-').value.1;
    var l0, l1 := TrimSpaceShape(left);
    var r0, r1 := TrimSpaceShape(right);
    p := Parts(lead + l0, TrimSpace(left), l1, r0, TrimSpace(right), r1 + tail);
    assert header == PREFIX + body;
    assert spec == left + "-" + right;
    Regroup(lead, l0, p.first, l1, r0, p.last, r1, tail);
    CommaFree(spec, l0, p.first, l1, r0, p.last, r1);
    assert '-' !in p.first by { assert forall c :: c in p.first ==> c in left; }
  }

  lemma CommaFree(spec: string, a: string, first: string, b: string, c: string, last: string, d: string)
    requires spec == a + first + b + "-" + (c + last + d) && ',' !in spec
    ensures ',' !in first && ',' !in last
  {
    forall i | 0 <= i < |first| ensures first[i] != ',' {
      assert spec[|a| + i] == first[i];
    }
    var base := |a| + |first| + |b| + 1 + |c|;
    forall i | 0 <= i < |last| ensures last[i] != ',' {
      assert spec[base + i] == last[i];
    }
  }

  /** A header is accepted with a range exactly when it reads as one that means that range. */
  lemma AcceptsExactly(header: string, size: int, range: ByteRange)
    ensures ParseSingleRange(header, size) == Ok(range) <==>
              size > 0 && exists p :: WellFormed(p) && Render(p) == header && Means(p.first, p.last, size, range)
  {
    if ParseSingleRange(header, size) == Ok(range) {
      var p := PartsOf(header);
      DecidesExactly(p.first, p.last, size, range);
    }
    forall p | size > 0 && WellFormed(p) && Render(p) == header && Means(p.first, p.last, size, range)
      ensures ParseSingleRange(header, size) == Ok(range)
    {
      FieldsOf(p);
      DecidesExactly(p.first, p.last, size, range);
    }
  }

  // ---------------------------------------------------------------- RFC 9110

  /** Range unit names are case-insensitive. */
  predicate BytesUnit(unit: string) {
    |unit| == 5 && forall i :: 0 <= i < 5 ==> unit[i] == "bytes"[i] || unit[i] == "BYTES"[i]
  }

  /** The numbers of an int-range or, with no first position, of a suffix-range. */
  predicate Positions(first: string, last: string) {
    && (first == "" || Digits(first)) && (last == "" || Digits(last)) && (first != "" || last != "")
  }

  /** bytes= int-range or bytes= suffix-range, one range and nothing else. */
  predicate RfcForm(header: string, unit: string, first: string, last: string) {
    BytesUnit(unit) && Positions(first, last) && header == unit + "=" + first + "-" + last
  }

  ghost predicate Grammatical(header: string) {
    exists unit, first, last :: RfcForm(header, unit, first, last)
  }

  /** What section 14.1.2 makes of the numbers; None when the range is invalid or not satisfiable. */
  function RfcAnswer(first: string, last: string, size: int): Option<ByteRange>
    requires Positions(first, last)
  {
    if size <= 0 then None
    else if first == "" then
      if Value(last) == 0 then None else Some(ByteRange(Max(0, size - Value(last)), size - 1))
    else if Value(first) >= size then None
    else if last == "" then Some(ByteRange(Value(first), size - 1))
    else if Value(last) < Value(first) then None
    else Some(ByteRange(Value(first), Min(Value(last), size - 1)))
  }

  function Granted(r: RangeResult): Option<ByteRange> {
    match r
    case Ok(range) => Some(range)
    case Err(_) => None
  }

  lemma PlainFields(first: string, last: string)
    requires Tight(first) && Tight(last) && '-' !in first && ',' !in first && ',' !in last
    ensures SplitFields("bytes=" + first + "-" + last) == Fields(first, last)
  {
    var p := Parts("", first, "", "", last, "");
    assert Render(p) == "bytes=" + first + "-" + last;
    FieldsOf(p);
  }

  /** Plain digits are read as their value when it fits int64, and not at all otherwise. */
  lemma PlainNumeral(s: string)
    requires Digits(s)
    ensures ParseInt(s) == if Value(s) <= MAX_INT64 then Some(Value(s)) else None
    ensures Tight(s) && ',' !in s && '-' !in s
  {
    hide Value, IsSpace;
    NumberChars();
    DigitsUnsigned(s);
    assert s[|s| - 1] in s;
  }

  /** The parser's answer to plain numbers, whether or not they fit. */
  lemma PlainAnswer(first: string, last: string, size: int)
    requires Positions(first, last) && size <= MAX_INT64
    ensures Granted(ParseSingleRange("bytes=" + first + "-" + last, size)) ==
            if last == "" || Value(last) <= MAX_INT64 then RfcAnswer(first, last, size) else None
  {
    hide SplitFields, ParseInt, Value, IsSpace, Digits;
    PositionText(first);
    PositionText(last);
    if first != "" {
      PlainNumeral(first);
    }
    if last != "" {
      PlainNumeral(last);
    }
    PlainFields(first, last);
  }

  lemma UnitOfPrefix(header: string)
    ensures PREFIX <= header ==> header[..5] == "bytes"
  {
    assert PREFIX[..5] == "bytes";
  }

  /**
   A header of the RFC's form is answered as the RFC says if and only if the RFC refuses it too, or the
   unit is in lower case and the last number fits int64.  A first position above int64 lies beyond every size.
   */
  lemma RfcAnswerIff(header: string, unit: string, first: string, last: string, size: int)
    requires RfcForm(header, unit, first, last) && size <= MAX_INT64
    ensures Granted(ParseSingleRange(header, size)) == RfcAnswer(first, last, size) <==>
            RfcAnswer(first, last, size).None? || (unit == "bytes" && (last == "" || Value(last) <= MAX_INT64))
  {
    if unit == "bytes" {
      assert "bytes" + "=" + first + "-" + last == "bytes=" + first + "-" + last;
      PlainAnswer(first, last, size);
    } else {
      assert header[..5] == unit;
      UnitOfPrefix(header);
    }
  }

  /** In particular all numbers within int64 and the usual spelling are enough. */
  lemma RfcRangesAccepted(first: string, last: string, size: int)
    requires Positions(first, last) && size <= MAX_INT64
    requires last != "" ==> Value(last) <= MAX_INT64
    ensures Granted(ParseSingleRange("bytes=" + first + "-" + last, size)) == RfcAnswer(first, last, size)
  {
    RfcAnswerIff("bytes=" + first + "-" + last, "bytes", first, last, size);
    assert "bytes=" + first + "-" + last == "bytes" + "=" + first + "-" + last;
  }

  predicate Signed(s: string) { s != "" && (s[0] == '+' || s[0] == '-') }

  /** White space anywhere around the numbers, or a sign on one of them. */
  predicate Decorated(p: Parts) {
    p.w0 + p.w1 + p.w2 + p.w3 != "" || Signed(p.first) || Signed(p.last)
  }

  lemma NumeralForm(s: string, n: int)
    requires Numeral(s, n)
    ensures Signed(s) || Digits(s)
  {
  }

  /** A decorated header is not of the RFC's form, and an undecorated one that means something is. */
  lemma DecoratedIff(p: Parts, size: int, range: ByteRange)
    requires WellFormed(p) && Means(p.first, p.last, size, range)
    ensures Decorated(p) <==> !Grammatical(Render(p))
  {
    hide Numeral;
    forall s: string, n | Numeral(s, n) ensures Signed(s) || Digits(s) {
      NumeralForm(s, n);
    }
    NeverBothEmpty(p.first, p.last, size, range);
    if !Decorated(p) {
      assert Render(p) == "bytes" + "=" + p.first + "-" + p.last;
      assert RfcForm(Render(p), "bytes", p.first, p.last);
    }
    forall unit, first, last | RfcForm(Render(p), unit, first, last) ensures !Decorated(p) {
      FormIsPlain(p, unit, first, last);
    }
  }

  lemma NeverBothEmpty(first: string, last: string, size: int, range: ByteRange)
    requires Means(first, last, size, range)
    ensures first != "" || last != ""
    ensures first != "" ==> exists s :: Numeral(first, s)
    ensures last != "" ==> exists n :: Numeral(last, n)
  {
    hide Numeral;
    forall n ensures !Numeral("", n) {
      ParseIntExact("", n);
    }
  }

  lemma FormIsPlain(p: Parts, unit: string, first: string, last: string)
    requires WellFormed(p) && RfcForm(Render(p), unit, first, last)
    ensures p == Parts("", first, "", "", last, "") && !Decorated(p)
  {
    hide SplitFields, Digits, IsSpace;
    var header := Render(p);
    PositionText(first);
    PositionText(last);
    assert unit == header[..5] == "bytes";
    assert header == "bytes=" + first + "-" + last;
    PlainFields(first, last);
    FieldsOf(p);
    assert |header| == 6 + |p.w0| + |first| + |p.w1| + 1 + |p.w2| + |last| + |p.w3|;
  }

  lemma PositionText(s: string)
    requires s == "" || Digits(s)
    ensures Tight(s) && '-' !in s && ',' !in s && !Signed(s)
  {
    hide Value;
    if s != "" {
      DigitsUnsigned(s);
      PlainNumeral(s);
    }
  }

  /**
   Outside the RFC's form a header is accepted exactly when it reads as a range with white space around
   its numbers or a sign on one of them.
   */
  lemma AcceptedOutsideForm(header: string, size: int, range: ByteRange)
    ensures ParseSingleRange(header, size) == Ok(range) && !Grammatical(header) <==>
              size > 0 && exists p ::
                WellFormed(p) && Render(p) == header && Means(p.first, p.last, size, range) && Decorated(p)
  {
    hide Means, WellFormed, Render, Decorated, ParseSingleRange, Grammatical;
    AcceptsExactly(header, size, range);
    forall p | WellFormed(p) && Render(p) == header && Means(p.first, p.last, size, range)
      ensures Decorated(p) <==> !Grammatical(header)
    {
      DecoratedIff(p, size, range);
    }
  }

  // ---------------------------------------------------------------- headers on which code and RFC differ

  lemma Zero()
    ensures Digits("0") && Value("0") == 0 && ParseInt("0") == Some(0) && ParseInt("-0") == Some(0)
    ensures ParseInt("+0") == Some(0)
    ensures Tight("0") && Tight("-0") && Tight("+0") && Spaces(" ") && Spaces("")
  {
    assert "0"[..0] == "";
    assert "-0"[1..] == "0" && "+0"[1..] == "0";
  }

  /** Signs and inner white space are accepted although the RFC's form has none. */
  lemma SignsAndSpacesAccepted()
    ensures ParseSingleRange("bytes=+0-0", 1) == Ok(ByteRange(0, 0)) && !Grammatical("bytes=+0-0")
    ensures ParseSingleRange("bytes=0--0", 1) == Ok(ByteRange(0, 0)) && !Grammatical("bytes=0--0")
    ensures ParseSingleRange("bytes=0 - 0", 1) == Ok(ByteRange(0, 0)) && !Grammatical("bytes=0 - 0")
  {
    hide ParseInt, ParseSingleRange, Tight, Spaces, Digits, Grammatical;
    Zero();
    Witness(Parts("", "+0", "", "", "0", ""), "bytes=+0-0");
    Witness(Parts("", "0", "", "", "-0", ""), "bytes=0--0");
    Witness(Parts("", "0", " ", " ", "0", ""), "bytes=0 - 0");
  }

  lemma Witness(p: Parts, header: string)
    requires WellFormed(p) && Render(p) == header && Decorated(p)
    requires ParseInt(p.first) == Some(0) && ParseInt(p.last) == Some(0)
    ensures ParseSingleRange(header, 1) == Ok(ByteRange(0, 0)) && !Grammatical(header)
  {
    ParseIntExact(p.first, 0);
    ParseIntExact(p.last, 0);
    FieldsOf(p);
    DecidesExactly(p.first, p.last, 1, ByteRange(0, 0));
    DecoratedIff(p, 1, ByteRange(0, 0));
  }

  function Decimal(n: nat): string
  {
    (if n < 10 then "" else Decimal(n / 10)) + [(n % 10 + '0' as int) as char]
  }

  lemma {:induction false} DecimalReads(n: nat)
    ensures Digits(Decimal(n)) && Value(Decimal(n)) == n
    decreases n
  {
    var s := Decimal(n);
    if n >= 10 {
      DecimalReads(n / 10);
      assert s[..|s| - 1] == Decimal(n / 10);
    } else {
      assert s[..|s| - 1] == "";
    }
  }

  /** From 2^63 on a last position or suffix length is refused although the RFC cuts it down to the size. */
  lemma LargeNumbersRefused(n: nat, size: int)
    requires n > MAX_INT64 && 0 < size <= MAX_INT64
    ensures ParseSingleRange("bytes=0-" + Decimal(n), size).Err?
    ensures RfcAnswerOf("0", n, size) == Some(ByteRange(0, size - 1))
    ensures ParseSingleRange("bytes=-" + Decimal(n), size).Err?
    ensures RfcAnswerOf("", n, size) == Some(ByteRange(0, size - 1))
  {
    hide Value, Digits, Decimal, ParseSingleRange;
    Zero();
    DecimalReads(n);
    PlainAnswer("0", Decimal(n), size);
    assert "bytes=" + "0" + "-" + Decimal(n) == "bytes=0-" + Decimal(n);
    PlainAnswer("", Decimal(n), size);
    assert "bytes=" + "" + "-" + Decimal(n) == "bytes=-" + Decimal(n);
  }

  function RfcAnswerOf(first: string, n: nat, size: int): Option<ByteRange>
    requires first == "" || Digits(first)
  {
    DecimalReads(n);
    RfcAnswer(first, Decimal(n), size)
  }

  /** The unit name is compared by case. */
  lemma UpperCaseUnitRefused(size: int)
    requires 0 < size <= MAX_INT64
    ensures RfcForm("Bytes=0-0", "Bytes", "0", "0") && RfcAnswer("0", "0", size) == Some(ByteRange(0, 0))
    ensures ParseSingleRange("Bytes=0-0", size) == Err(OnlyBytes)
  {
    Zero();
    assert "Bytes=0-0"[0] != PREFIX[0];
  }
}
