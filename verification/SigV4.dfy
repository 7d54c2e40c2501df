/** Requests signed with AWS Signature Version 4: the header the client prints and the server parses, and its lines. */
module SigV4 {
  import opened Metadata
  import opened Text

  const ALGORITHM := "AWS4-HMAC-SHA256"
  const HEADER_NAMES := ["host", "x-amz-content-sha256", "x-amz-date"]

  datatype Authorization = Authorization(
    accessKey: string, date: string, region: string, service: string, signedHeaders: string, signature: string)

  function SignedHeaders(): string { Join(HEADER_NAMES, ';') }

  /** The header the client prints. */
  function Printed(accessKey: string, date: string, region: string, signature: string): string {
    ALGORITHM + " "
    + ("Credential=" + (accessKey + "/" + (date + "/" + (region + "/" + ("s3" + "/" + "aws4_request")))))
    + "," + (" SignedHeaders=" + SignedHeaders() + "," + (" Signature=" + signature))
  }

  // ---------------------------------------------------------------- parsing

  function WithField(fields: map<string, string>, field: string): Option<map<string, string>> {
    match Cut(TrimSpace(field), '=')
    case None => None
    case Some((name, value)) => if name == "" || value == "" then None else Some(fields[name := value])
  }

  function FieldsOf(parts: seq<string>): Option<map<string, string>>
  {
    if |parts| == 0 then Some(map[])
    else match FieldsOf(parts[..|parts| - 1])
         case None => None
         case Some(fields) => WithField(fields, parts[|parts| - 1])
  }

  function FieldOf(fields: map<string, string>, name: string): string {
    if name in fields then fields[name] else ""
  }

  function FromFields(fields: map<string, string>): Option<Authorization> {
    var scope := Split(FieldOf(fields, "Credential"), '/');
    if |scope| != 5 || scope[4] != "aws4_request" then None
    else if FieldOf(fields, "SignedHeaders") == "" || FieldOf(fields, "Signature") == "" then None
    else Some(Authorization(scope[0], scope[1], scope[2], scope[3],
                            FieldOf(fields, "SignedHeaders"), FieldOf(fields, "Signature")))
  }

  function Parsed(header: string): Option<Authorization> {
    if !(ALGORITHM + " " <= header) then None
    else match FieldsOf(Split(header[|ALGORITHM| + 1..], ','))
         case None => None
         case Some(fields) => FromFields(fields)
  }

  method ParseAuthorization(header: string) returns (r: Option<Authorization>)
    ensures r == Parsed(header)
  {
    if !(ALGORITHM + " " <= header) {
      return None;
    }
    var parts := Split(header[|ALGORITHM| + 1..], ',');
    var fields: map<string, string> := map[];
    for i := 0 to |parts|
      invariant FieldsOf(parts[..i]) == Some(fields)
    {
      assert parts[..i + 1][..i] == parts[..i];
      var field := Cut(TrimSpace(parts[i]), '=');
      if field.None? || field.value.0 == "" || field.value.1 == "" {
        assert FieldsOf(parts[..i + 1]) == None;
        FieldsStayBroken(parts, i + 1);
        return None;
      }
      fields := fields[field.value.0 := field.value.1];
    }
    assert parts[..|parts|] == parts;
    var scope := Split(FieldOf(fields, "Credential"), '/');
    if |scope| != 5 || scope[4] != "aws4_request" {
      return None;
    }
    if FieldOf(fields, "SignedHeaders") == "" || FieldOf(fields, "Signature") == "" {
      return None;
    }
    return Some(Authorization(scope[0], scope[1], scope[2], scope[3], fields["SignedHeaders"], fields["Signature"]));
  }

  lemma {:induction false} FieldsStayBroken(parts: seq<string>, i: nat)
    requires i <= |parts| && FieldsOf(parts[..i]) == None
    ensures FieldsOf(parts) == None
    decreases |parts| - i
  {
    if i == |parts| {
      assert parts[..i] == parts;
    } else {
      assert parts[..i + 1][..i] == parts[..i];
      FieldsStayBroken(parts, i + 1);
    }
  }

  // ---------------------------------------------------------------- what parsing can produce

  predicate Clean(s: string) { ',' !in s && '/' !in s }

  ghost predicate NoCommas(fields: map<string, string>) {
    forall name :: name in fields ==> ',' !in fields[name]
  }

  lemma FieldNoComma(fields: map<string, string>, field: string)
    requires NoCommas(fields) && ',' !in field
    ensures WithField(fields, field).Some? ==> NoCommas(WithField(fields, field).value)
  {
    var lead, tail := TrimSpaceShape(field);
    CutShape(TrimSpace(field), '=');
  }

  lemma {:induction false} FieldsNoComma(parts: seq<string>)
    requires forall p :: p in parts ==> ',' !in p
    ensures FieldsOf(parts).Some? ==> NoCommas(FieldsOf(parts).value)
    decreases |parts|
  {
    if |parts| > 0 {
      var before := parts[..|parts| - 1];
      FieldsNoComma(before);
      if FieldsOf(before).Some? {
        FieldNoComma(FieldsOf(before).value, parts[|parts| - 1]);
      }
    }
  }

  /** The parts of a split hold nothing the whole does not. */
  lemma {:induction false} SplitWithin(s: string, sep: char, c: char)
    requires c !in s
    ensures forall p :: p in Split(s, sep) ==> c !in p
    decreases |s|
  {
    CutShape(s, sep);
    if Cut(s, sep).Some? {
      CutShortens(s, sep);
      SplitWithin(Cut(s, sep).value.1, sep, c);
    }
  }

  /** No parsed credential holds a slash or a comma, whatever header it came from. */
  lemma ParsedIsClean(header: string)
    ensures Parsed(header).Some? ==>
              var a := Parsed(header).value; Clean(a.accessKey) && Clean(a.date) && Clean(a.region) && Clean(a.service)
  {
    if Parsed(header).Some? {
      var parts := Split(header[|ALGORITHM| + 1..], ',');
      SplitParts(header[|ALGORITHM| + 1..], ',');
      FieldsNoComma(parts);
      var credential := FieldOf(FieldsOf(parts).value, "Credential");
      SplitParts(credential, '/');
      SplitWithin(credential, '/', ',');
    }
  }

  // ---------------------------------------------------------------- round trip

  /** A field written name=value, perhaps after spaces, is read as that. */
  lemma FieldReads(fields: map<string, string>, lead: string, name: string, value: string)
    requires Spaces(lead) && name != "" && value != "" && '=' !in name && !IsSpace(name[0])
    requires !IsSpace(value[|value| - 1])
    ensures WithField(fields, lead + (name + "=" + value)) == Some(fields[name := value])
  {
    TrimSpaceOf(lead, name + "=" + value, "");
    assert lead + (name + "=" + value) + "" == lead + (name + "=" + value);
    CutOf(name, value, '=');
  }

  function Scope(accessKey: string, date: string, region: string): seq<string> {
    [accessKey, date, region, "s3", "aws4_request"]
  }

  lemma JoinScope(accessKey: string, date: string, region: string)
    ensures Join(Scope(accessKey, date, region), '/') ==
            accessKey + "/" + (date + "/" + (region + "/" + ("s3" + "/" + "aws4_request")))
  {
    hide Join;
    assert Scope(accessKey, date, region) == [accessKey] + [date, region, "s3", "aws4_request"];
    assert [date, region, "s3", "aws4_request"] == [date] + [region, "s3", "aws4_request"];
    assert [region, "s3", "aws4_request"] == [region] + ["s3", "aws4_request"];
    assert ["s3", "aws4_request"] == ["s3"] + ["aws4_request"];
    JoinStep("s3", ["aws4_request"], '/');
    JoinStep(region, ["s3", "aws4_request"], '/');
    JoinStep(date, [region, "s3", "aws4_request"], '/');
    JoinStep(accessKey, [date, region, "s3", "aws4_request"], '/');
  }

  lemma JoinStep(first: string, rest: seq<string>, sep: char)
    requires |rest| > 0
    ensures Join([first] + rest, sep) == first + [sep] + Join(rest, sep)
    ensures |rest| == 1 ==> Join(rest, sep) == rest[0]
  {
    assert ([first] + rest)[1..] == rest;
  }

  lemma JoinThree(a: string, b: string, c: string, sep: char)
    ensures Join([a, b, c], sep) == a + [sep] + (b + [sep] + c)
  {
    JoinStep(b, [c], sep);
    JoinStep(a, [b, c], sep);
    assert [a] + [b, c] == [a, b, c] && [b] + [c] == [b, c];
  }

  function PrintedFields(accessKey: string, date: string, region: string, signature: string): seq<string> {
    ["Credential=" + Join(Scope(accessKey, date, region), '/'), " SignedHeaders=" + SignedHeaders(),
     " Signature=" + signature]
  }

  lemma PrintedIsJoined(accessKey: string, date: string, region: string, signature: string)
    ensures var header := Printed(accessKey, date, region, signature);
            && ALGORITHM + " " <= header
            && header[|ALGORITHM| + 1..] == Join(PrintedFields(accessKey, date, region, signature), ',')
  {
    hide SignedHeaders, Join;
    JoinScope(accessKey, date, region);
    var parts := PrintedFields(accessKey, date, region, signature);
    JoinThree(parts[0], parts[1], parts[2], ',');
    var header := Printed(accessKey, date, region, signature);
    assert header == ALGORITHM + " " + (parts[0] + "," + (parts[1] + "," + parts[2]));
  }

  lemma SignedHeadersText()
    ensures SignedHeaders() == "host" + ";" + ("x-amz-content-sha256" + ";" + "x-amz-date")
    ensures ',' !in SignedHeaders() && SignedHeaders() != "" && !IsSpace(SignedHeaders()[|SignedHeaders()| - 1])
  {
    JoinThree("host", "x-amz-content-sha256", "x-amz-date", ';');
  }

  /** A signature as the client prints it. */
  predicate Printable(signature: string) {
    signature != "" && ',' !in signature && !IsSpace(signature[|signature| - 1])
  }

  lemma PrintedFieldsNoComma(accessKey: string, date: string, region: string, signature: string)
    requires Clean(accessKey) && Clean(date) && Clean(region) && Printable(signature)
    ensures forall p :: p in PrintedFields(accessKey, date, region, signature) ==> ',' !in p
  {
    hide SignedHeaders, Join;
    JoinScope(accessKey, date, region);
    SignedHeadersText();
  }

  lemma NotSpaces()
    ensures !IsSpace('C') && !IsSpace('S') && !IsSpace('t') && Spaces("") && Spaces(" ")
  {
  }

  lemma PrintedFieldsRead(accessKey: string, date: string, region: string, signature: string)
    requires Printable(signature)
    ensures var scope := Join(Scope(accessKey, date, region), '/');
            FieldsOf(PrintedFields(accessKey, date, region, signature)) ==
            Some(map["Credential" := scope, "SignedHeaders" := SignedHeaders(), "Signature" := signature])
  {
    hide SignedHeaders, Join, WithField, FieldsOf, IsSpace;
    NotSpaces();
    JoinScope(accessKey, date, region);
    SignedHeadersText();
    var scope := Join(Scope(accessKey, date, region), '/');
    var parts := PrintedFields(accessKey, date, region, signature);
    var one := map["Credential" := scope];
    var two := one["SignedHeaders" := SignedHeaders()];
    assert scope[|scope| - 1] == 't';
    FieldReads(map[], "", "Credential", scope);
    assert "" + ("Credential" + "=" + scope) == parts[0];
    FieldReads(one, " ", "SignedHeaders", SignedHeaders());
    assert " " + ("SignedHeaders" + "=" + SignedHeaders()) == parts[1];
    FieldReads(two, " ", "Signature", signature);
    assert " " + ("Signature" + "=" + signature) == parts[2];
    FieldsOfThree(parts[0], parts[1], parts[2], one, two, two["Signature" := signature]);
  }

  lemma FieldsOfThree(a: string, b: string, c: string, one: map<string, string>, two: map<string, string>,
                      three: map<string, string>)
    requires WithField(map[], a) == Some(one) && WithField(one, b) == Some(two) && WithField(two, c) == Some(three)
    ensures FieldsOf([a, b, c]) == Some(three)
  {
    hide WithField;
    assert [a, b, c][..2] == [a, b] && [a, b][..1] == [a] && [a][..0] == [];
    assert FieldsOf([a]) == Some(one);
    assert FieldsOf([a, b]) == Some(two);
  }

  /** What the header says when it is read back without a mistake. */
  function Sent(accessKey: string, date: string, region: string, signature: string): Authorization {
    Authorization(accessKey, date, region, "s3", SignedHeaders(), signature)
  }

  lemma PrintedReads(accessKey: string, date: string, region: string, signature: string)
    requires Clean(accessKey) && Clean(date) && Clean(region) && Printable(signature)
    ensures Parsed(Printed(accessKey, date, region, signature)) == Some(Sent(accessKey, date, region, signature))
  {
    hide SignedHeaders, Join, Split, FieldsOf, Printed;
    var parts := PrintedFields(accessKey, date, region, signature);
    PrintedIsJoined(accessKey, date, region, signature);
    PrintedFieldsNoComma(accessKey, date, region, signature);
    SplitJoin(parts, ',');
    PrintedFieldsRead(accessKey, date, region, signature);
    var scope := Scope(accessKey, date, region);
    assert '/' !in scope[0] && '/' !in scope[1] && '/' !in scope[2] && '/' !in scope[3] && '/' !in scope[4];
    SplitJoin(scope, '/');
    SignedHeadersText();
  }

  /**
   Every field of the printed header is recovered exactly when neither access key nor region holds a slash or
   a comma.
   */
  lemma HeaderRoundTripIff(accessKey: string, date: string, region: string, signature: string)
    requires Clean(date) && Printable(signature)
    ensures Parsed(Printed(accessKey, date, region, signature)) == Some(Sent(accessKey, date, region, signature))
            <==> Clean(accessKey) && Clean(region)
  {
    if Clean(accessKey) && Clean(region) {
      PrintedReads(accessKey, date, region, signature);
    }
    ParsedIsClean(Printed(accessKey, date, region, signature));
  }

  // ---------------------------------------------------------------- canonical headers

  datatype Request = Request(verb: string, uri: string, query: string, host: string, headers: map<string, seq<string>>)

  /** Length of the leading run without white space. */
  function Word(s: string): nat
  {
    if |s| == 0 || IsSpace(s[0]) then 0 else 1 + Word(s[1..])
  }

  lemma {:induction false} WordFits(s: string)
    ensures Word(s) <= |s|
    ensures (forall c :: c in s ==> !IsSpace(c)) ==> Word(s) == |s|
    decreases |s|
  {
    if |s| > 0 {
      WordFits(s[1..]);
    }
  }

  lemma {:induction false} TrimLeftFits(s: string)
    ensures |TrimLeft(s)| <= |s| && (|TrimLeft(s)| > 0 ==> !IsSpace(TrimLeft(s)[0]))
    decreases |s|
  {
    if |s| > 0 {
      TrimLeftFits(s[1..]);
    }
  }

  /** strings.Fields. */
  function Words(s: string): seq<string>
    decreases |s|
  {
    TrimLeftFits(s);
    WordFits(TrimLeft(s));
    var t := TrimLeft(s);
    if |t| == 0 then [] else [t[..Word(t)]] + Words(t[Word(t)..])
  }

  function CollapseSpaces(s: string): string { Join(Words(s), ' ') }

  predicate NoSpace(s: string) { forall c :: c in s ==> !IsSpace(c) }

  lemma CollapseKeeps(s: string)
    requires NoSpace(s)
    ensures CollapseSpaces(s) == s
  {
    WordFits(s);
    if |s| > 0 {
      assert s[0] in s;
      assert TrimLeft(s) == s && s[Word(s)..] == "" && s[..Word(s)] == s;
      assert Words("") == [];
      assert Words(s) == [s];
    }
  }

  function HeaderValue(r: Request, name: string): Option<string> {
    if name == "host" then Some(r.host)
    else if name !in r.headers || |r.headers[name]| == 0 then None
    else Some(Join(r.headers[name], ','))
  }

  /** The canonical headers, or the first thing wrong with them. */
  datatype Lines = Lines(text: string) | EmptyName | MissingHeader

  /** fold is the lower-casing of the string library. */
  function HeaderLine(r: Request, rawName: string, fold: string -> string): Lines {
    var name := fold(TrimSpace(rawName));
    if name == "" then EmptyName
    else match HeaderValue(r, name)
         case None => MissingHeader
         case Some(value) => Lines(name + ":" + CollapseSpaces(value) + "\n")
  }

  function HeaderLines(r: Request, names: seq<string>, fold: string -> string): Lines
  {
    if |names| == 0 then Lines("")
    else
      var before, line := HeaderLines(r, names[..|names| - 1], fold), HeaderLine(r, names[|names| - 1], fold);
      if !before.Lines? then before else if !line.Lines? then line else Lines(before.text + line.text)
  }

  lemma {:induction false} LinesStayWrong(r: Request, names: seq<string>, fold: string -> string, i: nat)
    requires i <= |names| && !HeaderLines(r, names[..i], fold).Lines?
    ensures HeaderLines(r, names, fold) == HeaderLines(r, names[..i], fold)
    decreases |names| - i
  {
    if i == |names| {
      assert names[..i] == names;
    } else {
      assert names[..i + 1][..i] == names[..i];
      LinesStayWrong(r, names, fold, i + 1);
    }
  }

  method CanonicalHeaders(r: Request, signedHeaders: string, fold: string -> string) returns (b: Lines)
    ensures b == HeaderLines(r, Split(signedHeaders, ';'), fold)
  {
    var names := Split(signedHeaders, ';');
    var text := "";
    for i := 0 to |names|
      invariant HeaderLines(r, names[..i], fold) == Lines(text)
    {
      assert names[..i + 1][..i] == names[..i];
      var name := fold(TrimSpace(names[i]));
      if name == "" {
        LinesStayWrong(r, names, fold, i + 1);
        return EmptyName;
      }
      var value := HeaderValue(r, name);
      if value.None? {
        LinesStayWrong(r, names, fold, i + 1);
        return MissingHeader;
      }
      text := text + (name + ":" + CollapseSpaces(value.value) + "\n");
    }
    assert names[..|names|] == names;
    return Lines(text);
  }
}
