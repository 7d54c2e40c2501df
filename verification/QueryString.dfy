/** The canonical query string of a signed request: percent-encoding, sorting and joining of name/value pairs. */
module QueryStrings {
  import opened ByteData
  import opened Metadata
  import opened Text

  // ---------------------------------------------------------------- percent-encoding

  function HexDigit(n: int): char
    requires 0 <= n < 16
  {
    if n < 10 then ('0' as int + n) as char else ('A' as int + n - 10) as char
  }

  predicate Unreserved(b: int) {
    'A' as int <= b <= 'Z' as int || 'a' as int <= b <= 'z' as int || '0' as int <= b <= '9' as int
    || b == '-' as int || b == '_' as int || b == '.' as int || b == '~' as int
  }

  function EncodeByte(b: Byte): string {
    if Unreserved(b) then [b as char] else ['%', HexDigit(b / 16), HexDigit(b % 16)]
  }

  function Encode(s: Bytes): string
  {
    if |s| == 0 then "" else EncodeByte(s[0]) + Encode(s[1..])
  }

  /** The reader of percent-encoded text. */
  function Decode(s: string): Option<Bytes>
  {
    if |s| == 0 then Some([])
    else if s[0] == '%' then
      if |s| < 3 || HexValue(s[1]).None? || HexValue(s[2]).None? then None
      else match Decode(s[3..])
           case None => None
           case Some(rest) => Some([HexValue(s[1]).value * 16 + HexValue(s[2]).value] + rest)
    else if !Unreserved(s[0] as int) then None
    else match Decode(s[1..])
         case None => None
         case Some(rest) => Some([s[0] as int] + rest)
  }

  lemma HexRoundTrip(n: int)
    requires 0 <= n < 16
    ensures HexValue(HexDigit(n)) == Some(n)
    ensures HexDigit(n) != '&' && HexDigit(n) != '='
  {
  }

  lemma DecodePlain(c: char, rest: string)
    requires Unreserved(c as int)
    ensures Decode([c] + rest) == if Decode(rest).None? then None else Some([c as int] + Decode(rest).value)
  {
    assert ([c] + rest)[1..] == rest;
  }

  lemma DecodeHex(x: char, y: char, rest: string)
    requires HexValue(x).Some? && HexValue(y).Some?
    ensures Decode(['%', x, y] + rest) ==
            if Decode(rest).None? then None else Some([HexValue(x).value * 16 + HexValue(y).value] + Decode(rest).value)
  {
    hide HexValue, Unreserved;
    var s := ['%', x, y] + rest;
    assert s[0] == '%' && s[1] == x && s[2] == y && s[3..] == rest;
  }

  lemma DecodeByte(b: Byte, rest: string)
    ensures Decode(EncodeByte(b) + rest) == if Decode(rest).None? then None else Some([b] + Decode(rest).value)
  {
    hide Decode, HexDigit, HexValue;
    if Unreserved(b) {
      DecodePlain(b as char, rest);
    } else {
      HexRoundTrip(b / 16);
      HexRoundTrip(b % 16);
      DecodeHex(HexDigit(b / 16), HexDigit(b % 16), rest);
    }
  }

  /** Decoding undoes encoding. */
  lemma {:induction false} DecodeEncode(s: Bytes)
    ensures Decode(Encode(s)) == Some(s)
    decreases |s|
  {
    hide Decode, EncodeByte;
    if |s| > 0 {
      DecodeEncode(s[1..]);
      DecodeByte(s[0], Encode(s[1..]));
      assert s == [s[0]] + s[1..];
    } else {
      DecodeEmpty();
    }
  }

  lemma DecodeEmpty()
    ensures Decode("") == Some([])
  {
  }

  /** Encoded text holds no separator of the query string. */
  lemma {:induction false} EncodeClean(s: Bytes)
    ensures '&' !in Encode(s) && '=' !in Encode(s)
    decreases |s|
  {
    if |s| > 0 {
      EncodeClean(s[1..]);
      HexRoundTrip(s[0] / 16);
      HexRoundTrip(s[0] % 16);
    }
  }

  const HEX := "0123456789ABCDEF"

  /** The unreserved characters of section 2.3 of RFC 3986 stay, and every other byte becomes %XY in upper case. */
  lemma EncodeOne(b: Byte)
    ensures var c := b as char;
            Encode([b]) == if 'A' <= c <= 'Z' || 'a' <= c <= 'z' || '0' <= c <= '9' || c in {'-', '.', '_', '~'}
                           then [c] else ['%', HEX[b / 16], HEX[b % 16]]
  {
    assert Encode([b][1..]) == "";
    HexDigits(b / 16);
    HexDigits(b % 16);
  }

  lemma HexDigits(n: int)
    requires 0 <= n < 16
    ensures HexDigit(n) == HEX[n]
  {
  }

  lemma {:induction false} EncodeAppend(a: Bytes, b: Bytes)
    ensures Encode(a + b) == Encode(a) + Encode(b)
    decreases |a|
  {
    if |a| == 0 {
      assert a + b == b;
    } else {
      assert (a + b)[1..] == a[1..] + b;
      EncodeAppend(a[1..], b);
    }
  }

  lemma EncodeStep(value: Bytes, i: nat)
    requires i < |value|
    ensures Encode(value[i..]) == EncodeByte(value[i]) + Encode(value[i + 1..])
  {
    assert value[i..][1..] == value[i + 1..];
  }

  method AwsEncode(value: Bytes) returns (b: string)
    ensures b == Encode(value)
  {
    hide Encode;
    b := "";
    assert value[0..] == value;
    for i := 0 to |value|
      invariant b + Encode(value[i..]) == Encode(value)
    {
      var c := value[i];
      EncodeStep(value, i);
      if Unreserved(c) {
        b := b + [c as char];
      } else {
        b := b + ['%', HexDigit(c / 16), HexDigit(c % 16)];
      }
    }
    assert value[|value|..] == [];
    EncodeEmpty();
    assert b + "" == b;
  }

  lemma EncodeEmpty()
    ensures Encode([]) == ""
  {
  }

  // ---------------------------------------------------------------- sorting

  /** Byte order on strings. */
  predicate Before(a: string, b: string)
  {
    |a| == 0 || (|b| > 0 && (a[0] < b[0] || (a[0] == b[0] && Before(a[1..], b[1..]))))
  }

  lemma {:induction false} BeforeTotal(a: string, b: string)
    ensures Before(a, b) || Before(b, a)
    ensures Before(a, b) && Before(b, a) ==> a == b
    decreases |a|
  {
    if |a| > 0 && |b| > 0 && a[0] == b[0] {
      BeforeTotal(a[1..], b[1..]);
      assert a == [a[0]] + a[1..] && b == [b[0]] + b[1..];
    }
  }

  lemma {:induction false} BeforeTransitive(a: string, b: string, c: string)
    requires Before(a, b) && Before(b, c)
    ensures Before(a, c)
    decreases |a|
  {
    if |a| > 0 && a[0] == b[0] == c[0] {
      BeforeTransitive(a[1..], b[1..], c[1..]);
    }
  }

  /** Smaller where the two first differ. */
  predicate SmallerAt(a: string, b: string, i: nat) {
    i < |a| && i < |b| && a[..i] == b[..i] && a[i] < b[i]
  }

  lemma SmallerShift(c: char, a: string, b: string, i: nat)
    ensures SmallerAt([c] + a, [c] + b, i + 1) <==> SmallerAt(a, b, i)
    ensures !SmallerAt([c] + a, [c] + b, 0)
  {
    var a1, b1 := [c] + a, [c] + b;
    if i < |a| && i < |b| {
      assert a1[..i + 1] == [c] + a[..i] && b1[..i + 1] == [c] + b[..i];
      assert a1[..i + 1][1..] == a[..i] && b1[..i + 1][1..] == b[..i];
      assert a1[i + 1] == a[i] && b1[i + 1] == b[i];
    }
  }

  /** One string comes before another when it is smaller where they first differ, or is its beginning. */
  lemma {:induction false} BeforeIff(a: string, b: string)
    ensures Before(a, b) <==> a <= b || exists i :: SmallerAt(a, b, i)
    decreases |a|
  {
    if |a| > 0 && |b| > 0 && a[0] == b[0] {
      hide SmallerAt;
      var x, y := a[1..], b[1..];
      BeforeIff(x, y);
      assert a == [a[0]] + x && b == [a[0]] + y;
      if i: nat :| SmallerAt(x, y, i) {
        SmallerShift(a[0], x, y, i);
      }
      if i: nat :| SmallerAt(a, b, i) {
        SmallerShift(a[0], x, y, if i == 0 then 0 else i - 1);
      }
    } else if |a| > 0 && |b| > 0 && a[0] < b[0] {
      assert SmallerAt(a, b, 0);
    }
  }

  predicate Ordered(s: seq<string>) {
    forall i, j :: 0 <= i < j < |s| ==> Before(s[i], s[j])
  }

  function Insert(x: string, s: seq<string>): seq<string>
  {
    if |s| == 0 || Before(x, s[0]) then [x] + s else [s[0]] + Insert(x, s[1..])
  }

  function SortStrings(s: seq<string>): seq<string>
  {
    if |s| == 0 then [] else Insert(s[0], SortStrings(s[1..]))
  }

  lemma {:induction false} InsertKeeps(x: string, s: seq<string>)
    requires Ordered(s)
    ensures Ordered(Insert(x, s)) && multiset(Insert(x, s)) == multiset(s) + multiset{x}
    decreases |s|
  {
    BeforeTotal(x, x);
    if |s| == 0 {
    } else if Before(x, s[0]) {
      forall j | 0 <= j < |s| ensures Before(x, s[j]) {
        if j > 0 {
          BeforeTransitive(x, s[0], s[j]);
        }
      }
    } else {
      InsertKeeps(x, s[1..]);
      BeforeTotal(x, s[0]);
      var rest := Insert(x, s[1..]);
      assert s == [s[0]] + s[1..];
      forall j | 0 <= j < |rest| ensures Before(s[0], rest[j]) {
        assert rest[j] in multiset(rest);
        assert rest[j] == x || rest[j] in s[1..];
      }
    }
  }

  lemma {:induction false} SortKeeps(s: seq<string>)
    ensures Ordered(SortStrings(s)) && multiset(SortStrings(s)) == multiset(s)
    decreases |s|
  {
    if |s| > 0 {
      SortKeeps(s[1..]);
      InsertKeeps(s[0], SortStrings(s[1..]));
      assert s == [s[0]] + s[1..];
    }
  }

  lemma FirstSame(a: seq<string>, b: seq<string>)
    requires Ordered(a) && Ordered(b) && multiset(a) == multiset(b) && |a| > 0 && |b| > 0
    ensures a[0] == b[0]
  {
    hide Before;
    assert a[0] in multiset(b) && b[0] in multiset(a);
    var i :| 0 <= i < |b| && b[i] == a[0];
    var j :| 0 <= j < |a| && a[j] == b[0];
    BeforeTotal(a[0], b[0]);
    BeforeTotal(a[0], a[0]);
    assert Before(b[0], b[i]) && Before(a[0], a[j]);
  }

  lemma WithoutFirst(a: seq<string>)
    requires |a| > 0
    ensures multiset(a[1..]) == multiset(a) - multiset{a[0]}
    ensures Ordered(a) ==> Ordered(a[1..])
  {
    hide Before;
    assert a == [a[0]] + a[1..];
  }

  /** A sorted list is determined by what it holds. */
  lemma {:induction false} OrderedUnique(a: seq<string>, b: seq<string>)
    requires Ordered(a) && Ordered(b) && multiset(a) == multiset(b)
    ensures a == b
    decreases |a|
  {
    hide Ordered;
    assert |multiset(a)| == |a| && |multiset(b)| == |b|;
    if |a| > 0 {
      FirstSame(a, b);
      WithoutFirst(a);
      WithoutFirst(b);
      OrderedUnique(a[1..], b[1..]);
      assert a == [a[0]] + a[1..] && b == [b[0]] + b[1..];
    }
  }

  // ---------------------------------------------------------------- the query string

  type Values = map<Bytes, seq<Bytes>>

  function Pair(name: Bytes, value: Bytes): string { Encode(name) + "=" + Encode(value) }

  /** A name without values counts as having the empty one. */
  function Listed(values: seq<Bytes>): seq<Bytes> { if |values| == 0 then [[]] else values }

  /** The name/value pairs of a query, with multiplicity. */
  function Normal(values: Values): map<Bytes, multiset<Bytes>> {
    map name | name in values :: multiset(Listed(values[name]))
  }

  function Times(values: Values, name: Bytes, value: Bytes): nat {
    if name in values then multiset(Listed(values[name]))[value] else 0
  }

  function PairList(name: Bytes, values: seq<Bytes>): seq<string> {
    seq(|values|, i requires 0 <= i < |values| => Pair(name, values[i]))
  }

  ghost predicate IsPair(p: string) { exists name, value :: p == Pair(name, value) }

  /** These strings are the encoded pairs of the query, each as often as it occurs. */
  ghost predicate Collected(values: Values, pairs: multiset<string>) {
    && (forall name, value :: pairs[Pair(name, value)] == Times(values, name, value))
    && (forall p :: p in pairs ==> IsPair(p))
  }

  ghost predicate IsCanonical(values: Values, s: string) {
    exists pairs: seq<string> :: Collected(values, multiset(pairs)) && Ordered(pairs) && s == Join(pairs, '&')
  }

  lemma PairInjective(name: Bytes, value: Bytes, name1: Bytes, value1: Bytes)
    ensures Pair(name, value) == Pair(name1, value1) ==> name == name1 && value == value1
  {
    EncodeClean(name);
    EncodeClean(name1);
    CutOf(Encode(name), Encode(value), '=');
    CutOf(Encode(name1), Encode(value1), '=');
    DecodeEncode(name);
    DecodeEncode(name1);
    DecodeEncode(value);
    DecodeEncode(value1);
  }

  lemma {:induction false} PairListCount(name: Bytes, values: seq<Bytes>, name1: Bytes, value1: Bytes)
    ensures multiset(PairList(name, values))[Pair(name1, value1)] ==
            if name1 == name then multiset(values)[value1] else 0
    decreases |values|
  {
    hide Pair;
    var pairs := PairList(name, values);
    if |values| > 0 {
      PairListCount(name, values[1..], name1, value1);
      PairInjective(name, values[0], name1, value1);
      assert values == [values[0]] + values[1..];
      assert pairs == [Pair(name, values[0])] + PairList(name, values[1..]);
    }
  }

  lemma CollectedStep(values: Values, pairs: multiset<string>, name: Bytes, vals: seq<Bytes>)
    requires Collected(values, pairs) && name !in values
    ensures Collected(values[name := vals], pairs + multiset(PairList(name, Listed(vals))))
  {
    var more := PairList(name, Listed(vals));
    forall name1, value1
      ensures (pairs + multiset(more))[Pair(name1, value1)] == Times(values[name := vals], name1, value1)
    {
      PairListCount(name, Listed(vals), name1, value1);
    }
    forall p | p in pairs + multiset(more) ensures IsPair(p) {
      if p in more {
        var i :| 0 <= i < |more| && more[i] == p;
        assert p == Pair(name, Listed(vals)[i]);
      }
    }
  }

  lemma CollectedNone()
    ensures Collected(map[], multiset([]))
  {
  }

  method PairsOf(name: Bytes, vals: seq<Bytes>) returns (pairs: seq<string>)
    ensures pairs == PairList(name, Listed(vals))
  {
    var encodedName := AwsEncode(name);
    if |vals| == 0 {
      EncodeEmpty();
      assert Pair(name, []) == encodedName + "=" + "" == encodedName + "=";
      assert Listed(vals) == [[]];
      assert PairList(name, [[]]) == [Pair(name, [])];
      return [encodedName + "="];
    }
    pairs := [];
    for i := 0 to |vals|
      invariant pairs == PairList(name, vals[..i])
    {
      var encodedValue := AwsEncode(vals[i]);
      assert vals[..i + 1] == vals[..i] + [vals[i]];
      pairs := pairs + [encodedName + "=" + encodedValue];
    }
    assert vals[..|vals|] == vals;
  }

  lemma ValuesDone(values: Values, names: set<Bytes>)
    requires names == values.Keys
    ensures values - names == map[]
  {
  }

  lemma ValuesStep(values: Values, names: set<Bytes>, name: Bytes)
    requires name in names && names <= values.Keys
    ensures (values - names)[name := values[name]] == values - (names - {name})
  {
  }

  lemma ValuesLeft(values: Values, names: set<Bytes>)
    requires |names| == 0
    ensures values - names == values
  {
  }

  /** Names are visited in whatever order the map gives them. */
  method CanonicalQueryString(values: Values) returns (s: string)
    ensures IsCanonical(values, s)
  {
    hide Collected, PairList, Listed, SortStrings, Ordered, Join;
    CollectedNone();
    var pairs: seq<string> := [];
    var names := values.Keys;
    ValuesDone(values, names);
    while |names| != 0
      invariant names <= values.Keys && Collected(values - names, multiset(pairs))
    {
      var name :| name in names;
      var more := PairsOf(name, values[name]);
      CollectedStep(values - names, multiset(pairs), name, values[name]);
      ValuesStep(values, names, name);
      assert multiset(pairs + more) == multiset(pairs) + multiset(more);
      pairs := pairs + more;
      names := names - {name};
    }
    ValuesLeft(values, names);
    SortKeeps(pairs);
    s := Join(SortStrings(pairs), '&');
  }

  // ---------------------------------------------------------------- the string written out

  function Texts(list: seq<(Bytes, Bytes)>): seq<string> {
    seq(|list|, i requires 0 <= i < |list| => Encode(list[i].0) + "=" + Encode(list[i].1))
  }

  /** Every name with each of its values, a name without values with the empty one. */
  ghost predicate AllPairs(values: Values, list: seq<(Bytes, Bytes)>) {
    forall name, value ::
      multiset(list)[(name, value)] ==
        if name !in values then 0
        else if values[name] == [] then (if value == [] then 1 else 0)
        else multiset(values[name])[value]
  }

  ghost predicate Ascending(texts: seq<string>) {
    forall i, j :: 0 <= i < j < |texts| ==> texts[i] <= texts[j] || exists n :: SmallerAt(texts[i], texts[j], n)
  }

  lemma {:induction false} TextsCount(list: seq<(Bytes, Bytes)>, name: Bytes, value: Bytes)
    ensures multiset(Texts(list))[Pair(name, value)] == multiset(list)[(name, value)]
    decreases |list|
  {
    hide Encode;
    if |list| > 0 {
      TextsCount(list[1..], name, value);
      PairInjective(name, value, list[0].0, list[0].1);
      assert list == [list[0]] + list[1..];
      assert Texts(list) == [Pair(list[0].0, list[0].1)] + Texts(list[1..]);
    }
  }

  lemma {:induction false} PairsRead(pairs: seq<string>) returns (list: seq<(Bytes, Bytes)>)
    requires forall p :: p in pairs ==> IsPair(p)
    ensures Texts(list) == pairs
    decreases |pairs|
  {
    hide Encode;
    if |pairs| == 0 {
      list := [];
    } else {
      assert pairs[0] in pairs;
      assert forall p :: p in pairs[1..] ==> p in pairs;
      var name, value :| pairs[0] == Pair(name, value);
      var rest := PairsRead(pairs[1..]);
      list := [(name, value)] + rest;
      assert pairs == [pairs[0]] + pairs[1..];
    }
  }

  lemma AscendingIfOrdered(texts: seq<string>)
    requires Ordered(texts)
    ensures Ascending(texts)
  {
    hide Before, SmallerAt;
    forall i, j | 0 <= i < j < |texts| ensures texts[i] <= texts[j] || exists n :: SmallerAt(texts[i], texts[j], n) {
      BeforeIff(texts[i], texts[j]);
    }
  }

  lemma ListsAllPairs(values: Values, pairs: seq<string>, list: seq<(Bytes, Bytes)>)
    requires Collected(values, multiset(pairs)) && Texts(list) == pairs
    ensures AllPairs(values, list)
  {
    hide Pair, Texts, Encode;
    forall name, value ensures multiset(list)[(name, value)] == Times(values, name, value) {
      TextsCount(list, name, value);
      assert multiset(pairs)[Pair(name, value)] == Times(values, name, value);
    }
    TimesWrittenOut(values);
  }

  lemma TimesWrittenOut(values: Values)
    ensures forall name, value ::
              Times(values, name, value) ==
                if name !in values then 0
                else if values[name] == [] then (if value == [] then 1 else 0)
                else multiset(values[name])[value]
  {
  }

  lemma AllArePairs(values: Values, pairs: seq<string>)
    requires Collected(values, multiset(pairs))
    ensures forall p :: p in pairs ==> IsPair(p)
  {
    hide IsPair, Pair, Times;
    forall p | p in pairs ensures IsPair(p) {
      assert p in multiset(pairs);
    }
  }

  /** The canonical string is name=value for all pairs, percent-encoded, in ascending order, joined by ampersands. */
  lemma CanonicalWrittenOut(values: Values, s: string) returns (list: seq<(Bytes, Bytes)>)
    requires IsCanonical(values, s)
    ensures AllPairs(values, list) && Ascending(Texts(list)) && s == Join(Texts(list), '&')
  {
    hide Collected, Ordered, Ascending, AllPairs, Texts, Join, IsPair;
    var pairs: seq<string> :| Collected(values, multiset(pairs)) && Ordered(pairs) && s == Join(pairs, '&');
    AllArePairs(values, pairs);
    AscendingIfOrdered(pairs);
    list := PairsRead(pairs);
    ListsAllPairs(values, pairs, list);
  }

  lemma SamePairs(v: Values, w: Values, p: multiset<string>, q: multiset<string>)
    requires Collected(v, p) && Collected(w, q) && Normal(v) == Normal(w)
    ensures p == q
  {
    forall s ensures p[s] == q[s] {
      if s in p || s in q {
        var name, value :| s == Pair(name, value);
        assert name in v <==> name in Normal(v);
        assert name in w <==> name in Normal(w);
        assert p[Pair(name, value)] == Times(v, name, value) == Times(w, name, value) == q[Pair(name, value)];
      }
    }
  }

  lemma SameTimes(v: Values, w: Values, p: multiset<string>, name: Bytes, value: Bytes)
    requires Collected(v, p) && Collected(w, p)
    ensures Times(v, name, value) == Times(w, name, value)
  {
    hide Pair, Times;
    assert p[Pair(name, value)] == Times(v, name, value);
  }

  lemma TimesListed(v: Values, name: Bytes)
    ensures name in v ==> Times(v, name, Listed(v[name])[0]) > 0
    ensures name !in v ==> forall value :: Times(v, name, value) == 0
  {
  }

  lemma SameValues(v: Values, w: Values, p: multiset<string>)
    requires Collected(v, p) && Collected(w, p)
    ensures Normal(v) == Normal(w)
  {
    hide Collected;
    forall name, value ensures Times(v, name, value) == Times(w, name, value) {
      SameTimes(v, w, p, name, value);
    }
    forall name ensures name in v <==> name in w {
      TimesListed(v, name);
      TimesListed(w, name);
    }
    forall name | name in v ensures multiset(Listed(v[name])) == multiset(Listed(w[name])) {
      forall value ensures multiset(Listed(v[name]))[value] == multiset(Listed(w[name]))[value] {
        assert Times(v, name, value) == Times(w, name, value);
      }
    }
  }

  /** The joined list gives its pairs back. */
  lemma PairsFromJoin(v: Values, w: Values, p: seq<string>, q: seq<string>)
    requires Collected(v, multiset(p)) && Collected(w, multiset(q)) && Join(p, '&') == Join(q, '&')
    ensures p == q
  {
    PairsClean(v, p);
    PairsClean(w, q);
    JoinLength(p);
    JoinLength(q);
    if |p| > 0 && |q| > 0 {
      SplitJoin(p, '&');
      SplitJoin(q, '&');
    }
  }

  lemma JoinLength(p: seq<string>)
    ensures |p| > 0 ==> |Join(p, '&')| >= |p[0]|
    ensures |p| > 0 ==> p[0] in p
  {
  }

  lemma PairsClean(v: Values, p: seq<string>)
    requires Collected(v, multiset(p))
    ensures forall s :: s in p ==> '&' !in s && |s| > 0
  {
    forall s | s in p ensures '&' !in s && |s| > 0 {
      assert s in multiset(p);
      var name, value :| s == Pair(name, value);
      EncodeClean(name);
      EncodeClean(value);
    }
  }

  /**
   Two queries have the same canonical string exactly when they have the same name/value pairs, in
   whatever order either map was walked and its values listed.
   */
  lemma CanonicalIff(v: Values, w: Values, s: string, t: string)
    requires IsCanonical(v, s) && IsCanonical(w, t)
    ensures s == t <==> Normal(v) == Normal(w)
  {
    var p: seq<string> :| Collected(v, multiset(p)) && Ordered(p) && s == Join(p, '&');
    var q: seq<string> :| Collected(w, multiset(q)) && Ordered(q) && t == Join(q, '&');
    if Normal(v) == Normal(w) {
      SamePairs(v, w, multiset(p), multiset(q));
      OrderedUnique(p, q);
    }
    if s == t {
      PairsFromJoin(v, w, p, q);
      SameValues(v, w, multiset(p));
    }
  }
}
