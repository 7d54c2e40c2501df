/** The few Go string functions the parsers use, on strings of characters. */
module Text {
  import opened Metadata

  /** unicode.IsSpace. */
  predicate IsSpace(c: char) {
    c in {'\t', '\n', '\U{000B}', '\U{000C}', '\r', ' ', '\U{0085}', '\U{00A0}', '\U{1680}', '\U{2028}', '\U{2029}',
          '\U{202F}', '\U{205F}', '\U{3000}'}
    || '\U{2000}' <= c <= '\U{200A}'
  }

  predicate Spaces(s: string) { forall c :: c in s ==> IsSpace(c) }

  /** No white space at either end. */
  predicate Tight(s: string) { |s| > 0 ==> !IsSpace(s[0]) && !IsSpace(s[|s| - 1]) }

  function TrimLeft(s: string): string
  {
    if |s| > 0 && IsSpace(s[0]) then TrimLeft(s[1..]) else s
  }

  function TrimRight(s: string): string
  {
    if |s| > 0 && IsSpace(s[|s| - 1]) then TrimRight(s[..|s| - 1]) else s
  }

  function TrimSpace(s: string): string { TrimRight(TrimLeft(s)) }

  function TrimQuotesLeft(s: string): string
  {
    if |s| > 0 && s[0] == '"' then TrimQuotesLeft(s[1..]) else s
  }

  function TrimQuotesRight(s: string): string
  {
    if |s| > 0 && s[|s| - 1] == '"' then TrimQuotesRight(s[..|s| - 1]) else s
  }

  /** An entity tag without surrounding space and quotes; fold is the lower-casing of the string library. */
  function NormalizeETag(etag: string, fold: string -> string): string {
    fold(TrimQuotesRight(TrimQuotesLeft(TrimSpace(etag))))
  }

  /** The value of a hexadecimal digit, of either case. */
  function HexValue(c: char): Option<int> {
    if '0' <= c <= '9' then Some(c as int - '0' as int)
    else if 'a' <= c <= 'f' then Some(c as int - 'a' as int + 10)
    else if 'A' <= c <= 'F' then Some(c as int - 'A' as int + 10)
    else None
  }

  /** strings.Cut at one character. */
  function Cut(s: string, sep: char): Option<(string, string)>
  {
    if |s| == 0 then None
    else if s[0] == sep then Some(("", s[1..]))
    else match Cut(s[1..], sep)
         case None => None
         case Some((before, after)) => Some(([s[0]] + before, after))
  }

  /** strings.Split at one character. */
  function Split(s: string, sep: char): (r: seq<string>)
    ensures |r| > 0
    decreases |s|
  {
    match Cut(s, sep)
    case None => [s]
    case Some((before, after)) =>
      CutShortens(s, sep);
      [before] + Split(after, sep)
  }

  lemma CutShortens(s: string, sep: char)
    ensures Cut(s, sep).Some? ==> |Cut(s, sep).value.1| < |s|
  {
  }

  function Join(parts: seq<string>, sep: char): string
  {
    if |parts| == 0 then "" else if |parts| == 1 then parts[0] else parts[0] + [sep] + Join(parts[1..], sep)
  }

  // ---------------------------------------------------------------- lemmas

  lemma {:induction false} TrimLeftShape(s: string) returns (lead: string)
    ensures s == lead + TrimLeft(s) && Spaces(lead)
    ensures |TrimLeft(s)| > 0 ==> !IsSpace(TrimLeft(s)[0])
    decreases |s|
  {
    if |s| > 0 && IsSpace(s[0]) {
      lead := TrimLeftShape(s[1..]);
      assert s == [s[0]] + s[1..];
      lead := [s[0]] + lead;
    } else {
      lead := "";
    }
  }

  lemma {:induction false} TrimRightShape(s: string) returns (tail: string)
    ensures s == TrimRight(s) + tail && Spaces(tail)
    ensures |TrimRight(s)| > 0 ==> !IsSpace(TrimRight(s)[|TrimRight(s)| - 1])
    decreases |s|
  {
    if |s| > 0 && IsSpace(s[|s| - 1]) {
      tail := TrimRightShape(s[..|s| - 1]);
      assert s == s[..|s| - 1] + [s[|s| - 1]];
      tail := tail + [s[|s| - 1]];
    } else {
      tail := "";
    }
  }

  lemma TrimSpaceShape(s: string) returns (lead: string, tail: string)
    ensures s == lead + TrimSpace(s) + tail && Spaces(lead) && Spaces(tail) && Tight(TrimSpace(s))
  {
    lead := TrimLeftShape(s);
    tail := TrimRightShape(TrimLeft(s));
    var t := TrimSpace(s);
    if |t| > 0 {
      assert TrimLeft(s)[0] == t[0];
    }
  }

  lemma {:induction false} TrimLeftSkips(lead: string, s: string)
    requires Spaces(lead) && (|s| > 0 ==> !IsSpace(s[0]))
    ensures TrimLeft(lead + s) == s
    decreases |lead|
  {
    if |lead| == 0 {
      assert lead + s == s;
    } else {
      assert lead[0] in lead;
      assert (lead + s)[1..] == lead[1..] + s;
      TrimLeftSkips(lead[1..], s);
    }
  }

  lemma {:induction false} TrimRightSkips(s: string, tail: string)
    requires Spaces(tail) && (|s| > 0 ==> !IsSpace(s[|s| - 1]))
    ensures TrimRight(s + tail) == s
    decreases |tail|
  {
    if |tail| == 0 {
      assert s + tail == s;
    } else {
      assert tail[|tail| - 1] in tail;
      assert (s + tail)[..|s + tail| - 1] == s + tail[..|tail| - 1];
      TrimRightSkips(s, tail[..|tail| - 1]);
    }
  }

  lemma {:induction false} AllSpaceTrims(s: string)
    requires Spaces(s)
    ensures TrimLeft(s) == ""
    decreases |s|
  {
    if |s| > 0 {
      assert s[0] in s;
      AllSpaceTrims(s[1..]);
    }
  }

  /** Trimming finds the tight middle. */
  lemma TrimSpaceOf(lead: string, s: string, tail: string)
    requires Spaces(lead) && Spaces(tail) && Tight(s)
    ensures TrimSpace(lead + s + tail) == s
  {
    if |s| == 0 {
      assert lead + s + tail == lead + tail;
      AllSpaceTrims(lead + tail);
    } else {
      assert lead + s + tail == lead + (s + tail);
      TrimLeftSkips(lead, s + tail);
      TrimRightSkips(s, tail);
    }
  }

  lemma {:induction false} CutOf(before: string, after: string, sep: char)
    requires sep !in before
    ensures Cut(before + [sep] + after, sep) == Some((before, after))
    decreases |before|
  {
    var s := before + [sep] + after;
    if |before| == 0 {
      assert s[1..] == after;
    } else {
      assert s[1..] == before[1..] + [sep] + after;
      CutOf(before[1..], after, sep);
      assert before == [before[0]] + before[1..];
    }
  }

  lemma {:induction false} CutShape(s: string, sep: char)
    ensures Cut(s, sep).Some? ==> s == Cut(s, sep).value.0 + [sep] + Cut(s, sep).value.1 && sep !in Cut(s, sep).value.0
    ensures Cut(s, sep).None? <==> sep !in s
    decreases |s|
  {
    if |s| > 0 {
      CutShape(s[1..], sep);
      assert s == [s[0]] + s[1..];
    }
  }

  /** Splitting a joined list gives the list back when no part holds the separator. */
  lemma {:induction false} SplitJoin(parts: seq<string>, sep: char)
    requires |parts| > 0 && forall p :: p in parts ==> sep !in p
    ensures Split(Join(parts, sep), sep) == parts
    decreases |parts|
  {
    assert parts[0] in parts;
    if |parts| == 1 {
      CutShape(parts[0], sep);
      assert parts == [parts[0]];
    } else {
      CutOf(parts[0], Join(parts[1..], sep), sep);
      SplitJoin(parts[1..], sep);
      assert parts == [parts[0]] + parts[1..];
    }
  }

  /** No part of a split holds the separator. */
  lemma {:induction false} SplitParts(s: string, sep: char)
    ensures forall p :: p in Split(s, sep) ==> sep !in p
    decreases |s|
  {
    CutShape(s, sep);
    if Cut(s, sep).Some? {
      CutShortens(s, sep);
      SplitParts(Cut(s, sep).value.1, sep);
    }
  }

  /** Joining what was split gives the whole back. */
  lemma {:induction false} JoinSplit(s: string, sep: char)
    ensures Join(Split(s, sep), sep) == s
    decreases |s|
  {
    CutShape(s, sep);
    if Cut(s, sep).Some? {
      CutShortens(s, sep);
      var before, after := Cut(s, sep).value.0, Cut(s, sep).value.1;
      JoinSplit(after, sep);
      assert ([before] + Split(after, sep))[1..] == Split(after, sep);
    }
  }

  /** Trimming gives the one tight middle. */
  lemma TrimSpaceIff(s: string, core: string)
    ensures TrimSpace(s) == core <==>
              exists lead, tail :: s == lead + core + tail && Spaces(lead) && Spaces(tail) && Tight(core)
  {
    if TrimSpace(s) == core {
      var lead, tail := TrimSpaceShape(s);
      assert s == lead + core + tail;
    }
    if lead, tail :| s == lead + core + tail && Spaces(lead) && Spaces(tail) && Tight(core) {
      TrimSpaceOf(lead, core, tail);
    }
  }

  predicate Quotes(s: string) { forall c :: c in s ==> c == '"' }

  lemma {:induction false} TrimQuotesLeftSkips(left: string, s: string)
    requires Quotes(left) && (|s| > 0 ==> s[0] != '"')
    ensures TrimQuotesLeft(left + s) == s
    decreases |left|
  {
    if |left| == 0 {
      assert left + s == s;
    } else {
      assert left[0] in left && forall c :: c in left[1..] ==> c in left;
      assert (left + s)[1..] == left[1..] + s;
      TrimQuotesLeftSkips(left[1..], s);
    }
  }

  lemma {:induction false} TrimQuotesRightSkips(s: string, right: string)
    requires Quotes(right) && (|s| > 0 ==> s[|s| - 1] != '"')
    ensures TrimQuotesRight(s + right) == s
    decreases |right|
  {
    if |right| == 0 {
      assert s + right == s;
    } else {
      var rest := right[..|right| - 1];
      assert right[|right| - 1] in right;
      forall c | c in rest ensures c == '"' {
        var i :| 0 <= i < |rest| && rest[i] == c;
        assert right[i] == c && right[i] in right;
      }
      assert (s + right)[..|s + right| - 1] == s + rest;
      TrimQuotesRightSkips(s, rest);
    }
  }

  lemma {:induction false} TrimQuotesLeftShape(s: string) returns (left: string)
    ensures s == left + TrimQuotesLeft(s) && Quotes(left)
    ensures |TrimQuotesLeft(s)| > 0 ==> TrimQuotesLeft(s)[0] != '"'
    decreases |s|
  {
    if |s| > 0 && s[0] == '"' {
      left := TrimQuotesLeftShape(s[1..]);
      left := [s[0]] + left;
    } else {
      left := "";
    }
  }

  lemma {:induction false} TrimQuotesRightShape(s: string) returns (right: string)
    ensures s == TrimQuotesRight(s) + right && Quotes(right)
    ensures |TrimQuotesRight(s)| > 0 ==> TrimQuotesRight(s)[|TrimQuotesRight(s)| - 1] != '"'
    decreases |s|
  {
    if |s| > 0 && s[|s| - 1] == '"' {
      right := TrimQuotesRightShape(s[..|s| - 1]);
      right := right + [s[|s| - 1]];
    } else {
      right := "";
    }
  }

  /** tag is core, perhaps in quotes, perhaps with white space around the quotes. */
  ghost predicate TagOf(tag: string, core: string) {
    exists lead, left, right, tail ::
      && tag == lead + (left + core + right) + tail
      && Spaces(lead) && Spaces(tail) && Tight(left + core + right) && Quotes(left) && Quotes(right)
      && (core != "" ==> core[0] != '"' && core[|core| - 1] != '"')
  }

  lemma {:induction false} AllQuotesTrim(s: string)
    requires Quotes(s)
    ensures TrimQuotesLeft(s) == ""
    decreases |s|
  {
    if |s| > 0 {
      assert s[0] in s && forall c :: c in s[1..] ==> c in s;
      AllQuotesTrim(s[1..]);
    }
  }

  lemma QuotesTrimmed(left: string, core: string, right: string)
    requires Quotes(left) && Quotes(right) && (core != "" ==> core[0] != '"' && core[|core| - 1] != '"')
    ensures TrimQuotesRight(TrimQuotesLeft(left + core + right)) == core
  {
    if core == "" {
      assert left + core + right == left + right;
      AllQuotesTrim(left + right);
    } else {
      assert left + core + right == left + (core + right);
      TrimQuotesLeftSkips(left, core + right);
      TrimQuotesRightSkips(core, right);
    }
  }

  /** What a tag is without its quotes is compared in lower case. */
  lemma NormalizeETagOf(tag: string, core: string, fold: string -> string)
    requires TagOf(tag, core)
    ensures NormalizeETag(tag, fold) == fold(core)
  {
    hide TrimSpace, TrimQuotesLeft, TrimQuotesRight;
    var lead, left, right, tail :|
      && tag == lead + (left + core + right) + tail
      && Spaces(lead) && Spaces(tail) && Tight(left + core + right) && Quotes(left) && Quotes(right);
    TrimSpaceOf(lead, left + core + right, tail);
    QuotesTrimmed(left, core, right);
  }

  lemma TagHasCore(tag: string) returns (core: string)
    ensures TagOf(tag, core)
  {
    var lead, tail := TrimSpaceShape(tag);
    var quoted := TrimSpace(tag);
    var left := TrimQuotesLeftShape(quoted);
    var right := TrimQuotesRightShape(TrimQuotesLeft(quoted));
    hide TrimSpace, TrimQuotesLeft, TrimQuotesRight, Spaces, Quotes, IsSpace;
    core := TrimQuotesRight(TrimQuotesLeft(quoted));
    assert quoted == left + core + right;
    assert core != "" ==> core[0] == TrimQuotesLeft(quoted)[0];
    assert tag == lead + (left + core + right) + tail;
  }
}
