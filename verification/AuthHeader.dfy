/** Exactly which Authorization headers the server reads, and as what. */
module AuthHeaders {
  import opened Metadata
  import opened SigV4
  import opened Text

  /** A field name=value between white space; the name holds no equals sign. */
  ghost predicate FieldIs(part: string, name: string, value: string) {
    exists lead, tail ::
      && part == lead + (name + "=" + value) + tail && Spaces(lead) && Spaces(tail)
      && name != "" && '=' !in name && !IsSpace(name[0])
      && value != "" && !IsSpace(value[|value| - 1])
  }

  /** The header lists these fields, separated by commas. */
  ghost predicate Lists(header: string, parts: seq<string>, pairs: seq<(string, string)>) {
    && |parts| == |pairs| > 0
    && header == "AWS4-HMAC-SHA256 " + Join(parts, ',')
    && forall i :: 0 <= i < |parts| ==> ',' !in parts[i] && FieldIs(parts[i], pairs[i].0, pairs[i].1)
  }

  /** Of several fields of one name the last counts. */
  predicate LastIs(pairs: seq<(string, string)>, name: string, value: string) {
    exists i :: 0 <= i < |pairs| && pairs[i] == (name, value) && forall j :: i < j < |pairs| ==> pairs[j].0 != name
  }

  function ScopeText(a: Authorization): string {
    a.accessKey + "/" + (a.date + "/" + (a.region + "/" + (a.service + "/" + "aws4_request")))
  }

  /** The header says a: a scope of five names ending in aws4_request, signed headers and a signature. */
  ghost predicate Says(header: string, a: Authorization) {
    exists parts, pairs ::
      && Lists(header, parts, pairs)
      && LastIs(pairs, "Credential", ScopeText(a))
      && '/' !in a.accessKey && '/' !in a.date && '/' !in a.region && '/' !in a.service
      && LastIs(pairs, "SignedHeaders", a.signedHeaders)
      && LastIs(pairs, "Signature", a.signature)
  }

  lemma FieldIsIff(fields: map<string, string>, part: string, name: string, value: string)
    requires FieldIs(part, name, value)
    ensures WithField(fields, part) == Some(fields[name := value])
  {
    var lead, tail :| part == lead + (name + "=" + value) + tail && Spaces(lead) && Spaces(tail);
    TrimSpaceOf(lead, name + "=" + value, tail);
    CutOf(name, value, '=');
  }

  lemma FieldOfPart(fields: map<string, string>, part: string) returns (name: string, value: string)
    requires WithField(fields, part).Some?
    ensures FieldIs(part, name, value) && WithField(fields, part) == Some(fields[name := value])
  {
    var lead, tail := TrimSpaceShape(part);
    var core := TrimSpace(part);
    CutShape(core, '=');
    name, value := Cut(core, '=').value.0, Cut(core, '=').value.1;
    assert core == name + "=" + value;
    assert core[0] == name[0] && core[|core| - 1] == value[|value| - 1];
    assert part == lead + (name + "=" + value) + tail;
  }

  /** What the fields amount to. */
  ghost predicate Amounts(fields: map<string, string>, pairs: seq<(string, string)>) {
    forall name :: AmountsAt(fields, pairs, name)
  }

  ghost predicate AmountsAt(fields: map<string, string>, pairs: seq<(string, string)>, name: string) {
    if name in fields then LastIs(pairs, name, fields[name]) else forall j :: 0 <= j < |pairs| ==> pairs[j].0 != name
  }

  lemma AmountsNext(fields: map<string, string>, pairs: seq<(string, string)>, name: string, value: string)
    requires Amounts(fields, pairs)
    ensures Amounts(fields[name := value], pairs + [(name, value)])
  {
    var next := pairs + [(name, value)];
    var after := fields[name := value];
    forall n ensures AmountsAt(after, next, n) {
      assert AmountsAt(fields, pairs, n);
      if n == name {
        assert next[|pairs|] == (n, value);
      } else if n in fields {
        var i :| 0 <= i < |pairs| && pairs[i] == (n, fields[n]) && forall j :: i < j < |pairs| ==> pairs[j].0 != n;
        assert next[i] == (n, fields[n]);
      }
    }
  }

  lemma LastUnique(pairs: seq<(string, string)>, name: string, v: string, w: string)
    requires LastIs(pairs, name, v) && LastIs(pairs, name, w)
    ensures v == w
  {
  }

  lemma {:induction false} FieldsListed(parts: seq<string>) returns (pairs: seq<(string, string)>)
    requires FieldsOf(parts).Some?
    ensures |pairs| == |parts| && Amounts(FieldsOf(parts).value, pairs)
    ensures forall i :: 0 <= i < |parts| ==> FieldIs(parts[i], pairs[i].0, pairs[i].1)
    decreases |parts|
  {
    hide WithField, FieldIs;
    if |parts| == 0 {
      pairs := [];
    } else {
      var n := |parts| - 1;
      var before := FieldsListed(parts[..n]);
      var name, value := FieldOfPart(FieldsOf(parts[..n]).value, parts[n]);
      AmountsNext(FieldsOf(parts[..n]).value, before, name, value);
      pairs := before + [(name, value)];
    }
  }

  lemma {:induction false} ListedFields(parts: seq<string>, pairs: seq<(string, string)>)
    requires |pairs| == |parts|
    requires forall i :: 0 <= i < |parts| ==> FieldIs(parts[i], pairs[i].0, pairs[i].1)
    ensures FieldsOf(parts).Some? && Amounts(FieldsOf(parts).value, pairs)
    decreases |parts|
  {
    hide WithField, FieldIs;
    if |parts| > 0 {
      var n := |parts| - 1;
      ListedFields(parts[..n], pairs[..n]);
      FieldIsIff(FieldsOf(parts[..n]).value, parts[n], pairs[n].0, pairs[n].1);
      AmountsNext(FieldsOf(parts[..n]).value, pairs[..n], pairs[n].0, pairs[n].1);
      assert pairs[..n] + [(pairs[n].0, pairs[n].1)] == pairs;
    }
  }

  function ScopeParts(a: Authorization): seq<string> { [a.accessKey, a.date, a.region, a.service, "aws4_request"] }

  lemma ScopeJoined(a: Authorization)
    ensures Join(ScopeParts(a), '/') == ScopeText(a)
  {
    hide Join;
    assert ScopeParts(a) == [a.accessKey] + [a.date, a.region, a.service, "aws4_request"];
    assert [a.date, a.region, a.service, "aws4_request"] == [a.date] + [a.region, a.service, "aws4_request"];
    assert [a.region, a.service, "aws4_request"] == [a.region] + [a.service, "aws4_request"];
    assert [a.service, "aws4_request"] == [a.service] + ["aws4_request"];
    JoinStep(a.service, ["aws4_request"], '/');
    JoinStep(a.region, [a.service, "aws4_request"], '/');
    JoinStep(a.date, [a.region, a.service, "aws4_request"], '/');
    JoinStep(a.accessKey, [a.date, a.region, a.service, "aws4_request"], '/');
  }

  lemma FieldLast(fields: map<string, string>, pairs: seq<(string, string)>, name: string, value: string)
    requires Amounts(fields, pairs)
    ensures LastIs(pairs, name, value) <==> name in fields && fields[name] == value
  {
    assert AmountsAt(fields, pairs, name);
    if LastIs(pairs, name, value) {
      var i :| 0 <= i < |pairs| && pairs[i] == (name, value);
      assert pairs[i].0 == name;
      assert name in fields;
      LastUnique(pairs, name, value, fields[name]);
    }
  }

  /** A field of the last occurrence is never empty. */
  lemma LastNonEmpty(parts: seq<string>, pairs: seq<(string, string)>, name: string, value: string)
    requires |parts| == |pairs| && LastIs(pairs, name, value)
    requires forall i :: 0 <= i < |parts| ==> FieldIs(parts[i], pairs[i].0, pairs[i].1)
    ensures value != ""
  {
    var i :| 0 <= i < |pairs| && pairs[i] == (name, value);
    assert FieldIs(parts[i], pairs[i].0, pairs[i].1);
  }

  lemma ParsedSays(header: string, a: Authorization)
    requires Parsed(header) == Some(a)
    ensures Says(header, a)
  {
    hide FieldIs, FieldsOf, Split, Join, LastIs, Amounts;
    var rest := header[|ALGORITHM| + 1..];
    var parts := Split(rest, ',');
    JoinSplit(rest, ',');
    SplitParts(rest, ',');
    assert header == "AWS4-HMAC-SHA256 " + rest;
    var pairs := FieldsListed(parts);
    var fields := FieldsOf(parts).value;
    var credential := FieldOf(fields, "Credential");
    JoinSplit(credential, '/');
    SplitParts(credential, '/');
    var scope := Split(credential, '/');
    assert scope == ScopeParts(a);
    assert scope[0] in scope && scope[1] in scope && scope[2] in scope && scope[3] in scope;
    ScopeJoined(a);
    FieldLast(fields, pairs, "Credential", ScopeText(a));
    FieldLast(fields, pairs, "SignedHeaders", a.signedHeaders);
    FieldLast(fields, pairs, "Signature", a.signature);
    assert Lists(header, parts, pairs);
  }

  lemma SaysParsed(header: string, a: Authorization)
    requires Says(header, a)
    ensures Parsed(header) == Some(a)
  {
    hide FieldIs, FieldsOf, Split, Join, LastIs, Amounts;
    var parts, pairs :|
      && Lists(header, parts, pairs)
      && LastIs(pairs, "Credential", ScopeText(a))
      && '/' !in a.accessKey && '/' !in a.date && '/' !in a.region && '/' !in a.service
      && LastIs(pairs, "SignedHeaders", a.signedHeaders)
      && LastIs(pairs, "Signature", a.signature);
    SplitJoin(parts, ',');
    assert header[|ALGORITHM| + 1..] == Join(parts, ',');
    ListedFields(parts, pairs);
    var fields := FieldsOf(parts).value;
    FieldLast(fields, pairs, "Credential", ScopeText(a));
    FieldLast(fields, pairs, "SignedHeaders", a.signedHeaders);
    FieldLast(fields, pairs, "Signature", a.signature);
    LastNonEmpty(parts, pairs, "SignedHeaders", a.signedHeaders);
    LastNonEmpty(parts, pairs, "Signature", a.signature);
    ScopeJoined(a);
    var scope := ScopeParts(a);
    assert '/' !in scope[0] && '/' !in scope[1] && '/' !in scope[2] && '/' !in scope[3] && '/' !in scope[4];
    SplitJoin(scope, '/');
  }

  /** A header is read as a exactly when it says a; all others are malformed. */
  lemma ParsedIff(header: string, a: Authorization)
    ensures Parsed(header) == Some(a) <==> Says(header, a)
  {
    if Parsed(header) == Some(a) {
      ParsedSays(header, a);
    }
    if Says(header, a) {
      SaysParsed(header, a);
    }
  }
}
