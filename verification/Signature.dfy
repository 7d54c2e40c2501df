/** Signing a request on the client and verifying it on the server. */
module Signatures {
  import opened AuthHeaders
  import opened HeaderTexts
  import opened Metadata
  import opened SigV4
  import opened Text

  // ---------------------------------------------------------------- signing and verifying

  datatype Credential = Credential(accessKey: string, secretKey: string, tenant: string)

  /** The hash in hexadecimal, and the keyed signature of a text under secret, date, region and service. */
  datatype Crypto = Crypto(hash: string -> string, mac: (string, string, string, string, string) -> string)

  datatype Verdict = Identity(accessKey: string, tenant: string) | Denied(code: string)

  function Get(r: Request, name: string): string {
    if name in r.headers && |r.headers[name]| > 0 then r.headers[name][0] else ""
  }

  function CanonicalRequest(r: Request, headers: string, signedHeaders: string): string {
    var payload := if Get(r, "x-amz-content-sha256") == "" then "UNSIGNED-PAYLOAD" else Get(r, "x-amz-content-sha256");
    Join([r.verb, r.uri, r.query, headers, signedHeaders, payload], '\n')
  }

  function StringToSign(crypto: Crypto, amzDate: string, date: string, region: string, service: string,
                        canonical: string): string {
    Join([ALGORITHM, amzDate, Join([date, region, service, "aws4_request"], '/'), crypto.hash(canonical)], '\n')
  }

  /** The three header lines the client signs. */
  function ClientHeaders(host: string, payloadHash: string, amzDate: string): string {
    "host" + ":" + host + "\n"
    + ("x-amz-content-sha256" + ":" + payloadHash + "\n") + ("x-amz-date" + ":" + amzDate + "\n")
  }

  /** The day of a timestamp of the form YYYYMMDDThhmmssZ. */
  function Day(amzDate: string): string { if |amzDate| < 8 then amzDate else amzDate[..8] }

  function Stamped(r: Request, payloadHash: string, amzDate: string): Request {
    r.(headers := r.headers["x-amz-date" := [amzDate]]["x-amz-content-sha256" := [payloadHash]])
  }

  function ClientSignature(crypto: Crypto, r: Request, payloadHash: string, amzDate: string, secret: string,
                           region: string): string {
    var headers := ClientHeaders(r.host, payloadHash, amzDate);
    var canonical := Join([r.verb, r.uri, r.query, headers, SignedHeaders(), payloadHash], '\n');
    crypto.mac(secret, Day(amzDate), region, "s3", StringToSign(crypto, amzDate, Day(amzDate), region, "s3", canonical))
  }

  /** The request as the client sends it. */
  function Signed(crypto: Crypto, r: Request, payloadHash: string, amzDate: string, accessKey: string, secret: string,
                  region: string): Request {
    var stamped := Stamped(r, payloadHash, amzDate);
    stamped.(headers := stamped.headers["authorization" :=
      [Printed(accessKey, Day(amzDate), region, ClientSignature(crypto, r, payloadHash, amzDate, secret, region))]])
  }

  function Lookup(credentials: seq<Credential>, accessKey: string): Option<Credential>
  {
    if |credentials| == 0 then None
    else if credentials[0].accessKey == accessKey then Some(credentials[0])
    else Lookup(credentials[1..], accessKey)
  }

  /** Every credential is compared, so the time taken does not depend on the match; the first match counts. */
  method LookupCredential(credentials: seq<Credential>, accessKey: string) returns (r: Option<Credential>)
    ensures r == Lookup(credentials, accessKey)
  {
    r := None;
    assert credentials[0..] == credentials;
    for i := 0 to |credentials|
      invariant Lookup(credentials, accessKey) == if r.Some? then r else Lookup(credentials[i..], accessKey)
    {
      assert credentials[i..][1..] == credentials[i + 1..];
      if credentials[i].accessKey == accessKey && r.None? {
        r := Some(credentials[i]);
      }
    }
  }

  predicate IsHex(s: string) { |s| % 2 == 0 && forall c :: c in s ==> HexValue(c).Some? }

  /** The two texts are hexadecimal for the same bytes. */
  predicate SameHex(a: string, b: string) {
    IsHex(a) && IsHex(b) && |a| == |b| && forall i :: 0 <= i < |a| ==> HexValue(a[i]) == HexValue(b[i])
  }

  /** The signature this server computes for a request under parsed authorization a. */
  function Expected(crypto: Crypto, credential: Credential, r: Request, a: Authorization, headers: string): string {
    crypto.mac(credential.secretKey, a.date, a.region, a.service,
               StringToSign(crypto, Get(r, "x-amz-date"), a.date, a.region, a.service,
                            CanonicalRequest(r, headers, a.signedHeaders)))
  }

  /** The request names a known access key and carries that key's signature over what the server received. */
  predicate Authentic(crypto: Crypto, credentials: seq<Credential>, r: Request, fold: string -> string,
                      timestamp: string -> bool, timely: string -> bool, credential: Credential)
  {
    var parsed := Parsed(Get(r, "authorization"));
    parsed.Some? &&
    var a, amzDate := parsed.value, Get(r, "x-amz-date");
    var headers := HeaderLines(r, Split(a.signedHeaders, ';'), fold);
    && Lookup(credentials, a.accessKey) == Some(credential)
    && timestamp(amzDate) && timely(amzDate) && a.date == Day(amzDate)
    && headers.Lines? && SameHex(Expected(crypto, credential, r, a, headers.text), a.signature)
  }

  // ---------------------------------------------------------------- what a verified request carries

  /** A hexadecimal digit, of either case, and its value. */
  predicate Nibble(c: char, v: int) {
    0 <= v < 16 && (c == "0123456789abcdef"[v] || c == "0123456789ABCDEF"[v])
  }

  /** Two digits for each byte, the upper four bits first. */
  ghost predicate DecodesTo(s: string, bytes: seq<int>) {
    && |s| == 2 * |bytes|
    && forall i :: 0 <= i < |bytes| ==>
         0 <= bytes[i] < 256 && Nibble(s[2 * i], bytes[i] / 16) && Nibble(s[2 * i + 1], bytes[i] % 16)
  }

  lemma NibbleIff(c: char, v: int)
    ensures Nibble(c, v) <==> HexValue(c) == Some(v)
  {
  }

  lemma NibblesOfByte(v: int, w: int)
    requires 0 <= v < 16 && 0 <= w < 16
    ensures (16 * v + w) / 16 == v && (16 * v + w) % 16 == w && 0 <= 16 * v + w < 256
  {
  }

  lemma HexDecodes(s: string) returns (bytes: seq<int>)
    requires IsHex(s)
    ensures DecodesTo(s, bytes)
  {
    hide HexValue, Nibble;
    assert forall j :: 0 <= j < |s| ==> s[j] in s;
    bytes := seq(|s| / 2, i requires 0 <= i < |s| / 2 => 16 * HexValue(s[2 * i]).value + HexValue(s[2 * i + 1]).value);
    forall i | 0 <= i < |bytes|
      ensures 0 <= bytes[i] < 256 && Nibble(s[2 * i], bytes[i] / 16) && Nibble(s[2 * i + 1], bytes[i] % 16)
    {
      HexValueSmall(s[2 * i]);
      HexValueSmall(s[2 * i + 1]);
      NibblesOfByte(HexValue(s[2 * i]).value, HexValue(s[2 * i + 1]).value);
      NibbleIff(s[2 * i], bytes[i] / 16);
      NibbleIff(s[2 * i + 1], bytes[i] % 16);
    }
  }

  lemma HexValueSmall(c: char)
    ensures HexValue(c).Some? ==> 0 <= HexValue(c).value < 16
  {
  }

  /** The digits of what decodes, one by one. */
  lemma DigitsOf(s: string, bytes: seq<int>, j: nat)
    requires DecodesTo(s, bytes) && j < |s|
    ensures HexValue(s[j]) == Some(if j % 2 == 0 then bytes[j / 2] / 16 else bytes[j / 2] % 16)
  {
    var i := j / 2;
    assert Nibble(s[2 * i], bytes[i] / 16) && Nibble(s[2 * i + 1], bytes[i] % 16);
    NibbleIff(s[2 * i], bytes[i] / 16);
    NibbleIff(s[2 * i + 1], bytes[i] % 16);
  }

  lemma DecodesAsSame(a: string, b: string, bytes: seq<int>)
    requires DecodesTo(a, bytes) && DecodesTo(b, bytes)
    ensures SameHex(a, b)
  {
    hide HexValue, DecodesTo;
    assert |a| == |b| == 2 * |bytes| by { LengthOf(a, bytes); LengthOf(b, bytes); }
    forall j | 0 <= j < |a| ensures HexValue(a[j]).Some? && HexValue(a[j]) == HexValue(b[j]) {
      DigitsOf(a, bytes, j);
      DigitsOf(b, bytes, j);
    }
  }

  lemma LengthOf(s: string, bytes: seq<int>)
    requires DecodesTo(s, bytes)
    ensures |s| == 2 * |bytes|
  {
  }

  lemma SameDecodes(a: string, b: string, bytes: seq<int>)
    requires SameHex(a, b) && DecodesTo(a, bytes)
    ensures DecodesTo(b, bytes)
  {
    hide HexValue, Nibble;
    forall i | 0 <= i < |bytes|
      ensures 0 <= bytes[i] < 256 && Nibble(b[2 * i], bytes[i] / 16) && Nibble(b[2 * i + 1], bytes[i] % 16)
    {
      NibbleIff(a[2 * i], bytes[i] / 16);
      NibbleIff(a[2 * i + 1], bytes[i] % 16);
      NibbleIff(b[2 * i], bytes[i] / 16);
      NibbleIff(b[2 * i + 1], bytes[i] % 16);
    }
  }

  /** The header's first value; without the header, nothing. */
  predicate FirstValue(r: Request, name: string, value: string) {
    if name in r.headers && |r.headers[name]| > 0 then value == r.headers[name][0] else value == ""
  }

  /** The text a signature is for, line by line. */
  function SignedText(crypto: Crypto, r: Request, a: Authorization, amzDate: string, lines: string, payload: string)
    : string
  {
    "AWS4-HMAC-SHA256" + "\n" + (amzDate + "\n"
    + ((a.date + "/" + (a.region + "/" + (a.service + "/" + "aws4_request"))) + "\n"
    + crypto.hash(r.verb + "\n" + (r.uri + "\n" + (r.query + "\n"
                  + (lines + "\n" + (a.signedHeaders + "\n" + payload)))))))
  }

  /** The first credential with this access key. */
  predicate FirstWith(credentials: seq<Credential>, accessKey: string, c: Credential) {
    exists k :: 0 <= k < |credentials| && credentials[k] == c && c.accessKey == accessKey
                && forall j :: 0 <= j < k ==> credentials[j].accessKey != accessKey
  }

  /** What the server reads off a request while it verifies it. */
  datatype Reading = Reading(header: string, a: Authorization, amzDate: string, names: seq<string>, lines: string,
                             sha: string, bytes: seq<int>)

  function PayloadHash(g: Reading): string { if g.sha == "" then "UNSIGNED-PAYLOAD" else g.sha }

  /** g is what the request carries, and its signature decodes to the bytes the named key's signature decodes to. */
  ghost predicate GrantedBy(crypto: Crypto, credentials: seq<Credential>, r: Request, fold: string -> string,
                            timestamp: string -> bool, timely: string -> bool, c: Credential, g: Reading) {
    && FirstValue(r, "authorization", g.header) && Says(g.header, g.a) && FirstWith(credentials, g.a.accessKey, c)
    && FirstValue(r, "x-amz-date", g.amzDate) && timestamp(g.amzDate) && timely(g.amzDate)
    && g.a.date == (if |g.amzDate| < 8 then g.amzDate else g.amzDate[..8])
    && |g.names| > 0 && Join(g.names, ';') == g.a.signedHeaders && (forall name :: name in g.names ==> ';' !in name)
    && HeaderText(r, g.names, fold, g.lines)
    && FirstValue(r, "x-amz-content-sha256", g.sha)
    && DecodesTo(crypto.mac(c.secretKey, g.a.date, g.a.region, g.a.service,
                            SignedText(crypto, r, g.a, g.amzDate, g.lines, PayloadHash(g))), g.bytes)
    && DecodesTo(g.a.signature, g.bytes)
  }

  ghost predicate Granted(crypto: Crypto, credentials: seq<Credential>, r: Request, fold: string -> string,
                          timestamp: string -> bool, timely: string -> bool, c: Credential) {
    exists g :: GrantedBy(crypto, credentials, r, fold, timestamp, timely, c, g)
  }

  lemma FirstValueIff(r: Request, name: string, value: string)
    ensures FirstValue(r, name, value) <==> Get(r, name) == value
  {
  }

  lemma {:induction false} LookupIff(credentials: seq<Credential>, accessKey: string, c: Credential)
    ensures Lookup(credentials, accessKey) == Some(c) <==> FirstWith(credentials, accessKey, c)
    decreases |credentials|
  {
    if |credentials| > 0 {
      LookupIff(credentials[1..], accessKey, c);
      if FirstWith(credentials[1..], accessKey, c) && credentials[0].accessKey != accessKey {
        var k :| 0 <= k < |credentials[1..]| && credentials[1..][k] == c
                 && forall j :: 0 <= j < k ==> credentials[1..][j].accessKey != accessKey;
        assert credentials[k + 1] == c;
        forall j | 0 <= j < k + 1 ensures credentials[j].accessKey != accessKey {
          if j > 0 { assert credentials[j] == credentials[1..][j - 1]; }
        }
      }
      if FirstWith(credentials, accessKey, c) && credentials[0].accessKey != accessKey {
        var k :| 0 <= k < |credentials| && credentials[k] == c
                 && forall j :: 0 <= j < k ==> credentials[j].accessKey != accessKey;
        assert credentials[1..][k - 1] == c;
        forall j | 0 <= j < k - 1 ensures credentials[1..][j].accessKey != accessKey {
          assert credentials[1..][j] == credentials[j + 1];
        }
      }
    }
  }

  lemma JoinSix(a: string, b: string, c: string, d: string, e: string, f: string, sep: char)
    ensures Join([a, b, c, d, e, f], sep) ==
            a + [sep] + (b + [sep] + (c + [sep] + (d + [sep] + (e + [sep] + f))))
  {
    hide Join;
    assert [a, b, c, d, e, f] == [a] + [b, c, d, e, f] && [b, c, d, e, f] == [b] + [c, d, e, f];
    assert [c, d, e, f] == [c] + [d, e, f];
    JoinThree(d, e, f, sep);
    JoinStep(c, [d, e, f], sep);
    JoinStep(b, [c, d, e, f], sep);
    JoinStep(a, [b, c, d, e, f], sep);
  }

  lemma JoinFour(a: string, b: string, c: string, d: string, sep: char)
    ensures Join([a, b, c, d], sep) == a + [sep] + (b + [sep] + (c + [sep] + d))
  {
    hide Join;
    assert [a, b, c, d] == [a] + [b, c, d];
    JoinThree(b, c, d, sep);
    JoinStep(a, [b, c, d], sep);
  }

  /** The server signs that text. */
  lemma TextIsSigned(crypto: Crypto, r: Request, a: Authorization, lines: string, sha: string)
    requires FirstValue(r, "x-amz-content-sha256", sha)
    ensures var amzDate := Get(r, "x-amz-date");
            StringToSign(crypto, amzDate, a.date, a.region, a.service, CanonicalRequest(r, lines, a.signedHeaders)) ==
            SignedText(crypto, r, a, amzDate, lines, if sha == "" then "UNSIGNED-PAYLOAD" else sha)
  {
    hide Join;
    FirstValueIff(r, "x-amz-content-sha256", sha);
    var amzDate, payload := Get(r, "x-amz-date"), if sha == "" then "UNSIGNED-PAYLOAD" else sha;
    JoinSix(r.verb, r.uri, r.query, lines, a.signedHeaders, payload, '\n');
    JoinFour(a.date, a.region, a.service, "aws4_request", '/');
    var canonical := CanonicalRequest(r, lines, a.signedHeaders);
    JoinFour("AWS4-HMAC-SHA256", amzDate, Join([a.date, a.region, a.service, "aws4_request"], '/'),
             crypto.hash(canonical), '\n');
  }

  lemma AuthenticIsGranted(crypto: Crypto, credentials: seq<Credential>, r: Request, fold: string -> string,
                           timestamp: string -> bool, timely: string -> bool, c: Credential)
    requires Authentic(crypto, credentials, r, fold, timestamp, timely, c)
    ensures Granted(crypto, credentials, r, fold, timestamp, timely, c)
  {
    hide Parsed, Says, HeaderLines, HeaderText, SameHex, DecodesTo, StringToSign, CanonicalRequest, SignedText, Lookup;
    hide FirstWith, Get, FirstValue, Split, Join;
    var header, amzDate, sha := Get(r, "authorization"), Get(r, "x-amz-date"), Get(r, "x-amz-content-sha256");
    FirstValueIff(r, "authorization", header);
    FirstValueIff(r, "x-amz-date", amzDate);
    FirstValueIff(r, "x-amz-content-sha256", sha);
    var a := Parsed(header).value;
    ParsedIff(header, a);
    LookupIff(credentials, a.accessKey, c);
    var names := Split(a.signedHeaders, ';');
    JoinSplit(a.signedHeaders, ';');
    SplitParts(a.signedHeaders, ';');
    var lines := HeaderLines(r, names, fold).text;
    HeaderLinesIff(r, names, fold, lines);
    TextIsSigned(crypto, r, a, lines, sha);
    var expected := Expected(crypto, c, r, a, lines);
    var bytes := HexOfSame(expected, a.signature);
    assert GrantedBy(crypto, credentials, r, fold, timestamp, timely, c,
                     Reading(header, a, amzDate, names, lines, sha, bytes));
  }

  lemma HexOfSame(a: string, b: string) returns (bytes: seq<int>)
    requires SameHex(a, b)
    ensures DecodesTo(a, bytes) && DecodesTo(b, bytes)
  {
    bytes := HexDecodes(a);
    SameDecodes(a, b, bytes);
  }

  lemma GrantedIsAuthentic(crypto: Crypto, credentials: seq<Credential>, r: Request, fold: string -> string,
                           timestamp: string -> bool, timely: string -> bool, c: Credential, g: Reading)
    requires GrantedBy(crypto, credentials, r, fold, timestamp, timely, c, g)
    ensures Authentic(crypto, credentials, r, fold, timestamp, timely, c)
  {
    hide Parsed, Says, HeaderLines, HeaderText, SameHex, DecodesTo, StringToSign, CanonicalRequest, SignedText, Lookup;
    hide FirstWith, Get, FirstValue, Split, Join;
    FirstValueIff(r, "authorization", g.header);
    FirstValueIff(r, "x-amz-date", g.amzDate);
    ParsedIff(g.header, g.a);
    LookupIff(credentials, g.a.accessKey, c);
    SplitJoin(g.names, ';');
    HeaderLinesIff(r, g.names, fold, g.lines);
    TextIsSigned(crypto, r, g.a, g.lines, g.sha);
    DecodesAsSame(Expected(crypto, c, r, g.a, g.lines), g.a.signature, g.bytes);
  }

  /** The server's test, written out: it is passed exactly by the requests that carry such a signature. */
  lemma AuthenticIff(crypto: Crypto, credentials: seq<Credential>, r: Request, fold: string -> string,
                     timestamp: string -> bool, timely: string -> bool, c: Credential)
    ensures Authentic(crypto, credentials, r, fold, timestamp, timely, c) <==>
            Granted(crypto, credentials, r, fold, timestamp, timely, c)
  {
    hide GrantedBy, Authentic;
    if Authentic(crypto, credentials, r, fold, timestamp, timely, c) {
      AuthenticIsGranted(crypto, credentials, r, fold, timestamp, timely, c);
    }
    if g :| GrantedBy(crypto, credentials, r, fold, timestamp, timely, c, g) {
      GrantedIsAuthentic(crypto, credentials, r, fold, timestamp, timely, c, g);
    }
  }

  lemma HeaderReadAs(header: string)
    ensures forall a :: Says(header, a) <==> Parsed(header) == Some(a)
    ensures forall a :: !Says("", a)
  {
    forall a ensures (Says(header, a) <==> Parsed(header) == Some(a)) && !Says("", a) {
      ParsedIff(header, a);
      ParsedIff("", a);
    }
  }

  ghost predicate Known(credentials: seq<Credential>, accessKey: string) {
    exists k :: 0 <= k < |credentials| && credentials[k].accessKey == accessKey
  }

  lemma {:induction false} LookupKnown(credentials: seq<Credential>, accessKey: string)
    ensures Lookup(credentials, accessKey).Some? <==> Known(credentials, accessKey)
    decreases |credentials|
  {
    if |credentials| > 0 {
      LookupKnown(credentials[1..], accessKey);
      assert credentials == [credentials[0]] + credentials[1..];
      if k :| 0 <= k < |credentials[1..]| && credentials[1..][k].accessKey == accessKey {
        assert credentials[k + 1].accessKey == accessKey;
      }
      if k :| 1 <= k < |credentials| && credentials[k].accessKey == accessKey {
        assert credentials[1..][k - 1].accessKey == accessKey;
      }
    }
  }

  /**
   An identity is that of the credential the request is granted to, and a request granted to one is never
   denied; the code of a denial says what was wrong.  timestamp says whether a date header parses, timely whether
   it is within the allowed skew.
   */
  method Verify(crypto: Crypto, credentials: seq<Credential>, r: Request, fold: string -> string,
                timestamp: string -> bool, timely: string -> bool) returns (v: Verdict)
    ensures credentials == [] ==> v == Identity("", "default")
    ensures credentials != [] && v.Identity? ==>
              exists c ::
                Authentic(crypto, credentials, r, fold, timestamp, timely, c) && v == Identity(c.accessKey, c.tenant)
    ensures credentials != [] && v.Denied? ==>
              forall c :: !Authentic(crypto, credentials, r, fold, timestamp, timely, c)
    ensures credentials != [] && v.Identity? ==>
              exists c :: Granted(crypto, credentials, r, fold, timestamp, timely, c)
                          && v == Identity(c.accessKey, c.tenant)
    ensures credentials != [] && v.Denied? ==> forall c :: !Granted(crypto, credentials, r, fold, timestamp, timely, c)
    ensures credentials != [] ==>
              var header, amzDate := Get(r, "authorization"), Get(r, "x-amz-date");
              && (v == Denied("AccessDenied") <==> header == "")
              && (v == Denied("InvalidAccessKeyId") <==>
                    exists a :: Says(header, a) && !Known(credentials, a.accessKey))
              && (v == Denied("RequestTimeTooSkewed") <==>
                    && timestamp(amzDate) && !timely(amzDate)
                    && exists a :: Says(header, a) && Known(credentials, a.accessKey))
              && (v == Denied("SignatureDoesNotMatch") ==>
                    && timestamp(amzDate) && timely(amzDate)
                    && exists a :: Says(header, a) && Known(credentials, a.accessKey) && a.date == Day(amzDate))
  {
    hide HeaderLines, SameHex, StringToSign, CanonicalRequest, Parsed, Says, Lookup, Known, Granted;
    if |credentials| == 0 {
      return Identity("", "default");
    }
    forall c ensures Authentic(crypto, credentials, r, fold, timestamp, timely, c) <==>
                     Granted(crypto, credentials, r, fold, timestamp, timely, c) {
      AuthenticIff(crypto, credentials, r, fold, timestamp, timely, c);
    }
    var authorization := Get(r, "authorization");
    HeaderReadAs(authorization);
    if authorization == "" {
      return Denied("AccessDenied");
    }
    var parsed := ParseAuthorization(authorization);
    if parsed.None? {
      return Denied("AuthorizationHeaderMalformed");
    }
    var a := parsed.value;
    var credential := LookupCredential(credentials, a.accessKey);
    LookupKnown(credentials, a.accessKey);
    if credential.None? {
      return Denied("InvalidAccessKeyId");
    }
    var amzDate := Get(r, "x-amz-date");
    if !timestamp(amzDate) {
      return Denied("AuthorizationHeaderMalformed");
    }
    if !timely(amzDate) {
      return Denied("RequestTimeTooSkewed");
    }
    if a.date != Day(amzDate) {
      return Denied("AuthorizationHeaderMalformed");
    }
    var headers := CanonicalHeaders(r, a.signedHeaders, fold);
    if headers.EmptyName? {
      return Denied("AuthorizationHeaderMalformed");
    }
    if headers.MissingHeader? {
      return Denied("SignatureDoesNotMatch");
    }
    var canonical := CanonicalRequest(r, headers.text, a.signedHeaders);
    var text := StringToSign(crypto, amzDate, a.date, a.region, a.service, canonical);
    var expected := crypto.mac(credential.value.secretKey, a.date, a.region, a.service, text);
    if !SameHex(expected, a.signature) {
      return Denied("SignatureDoesNotMatch");
    }
    assert Authentic(crypto, credentials, r, fold, timestamp, timely, credential.value);
    return Identity(credential.value.accessKey, credential.value.tenant);
  }

  // ---------------------------------------------------------------- one signature for one request

  /** As the standard library prints it. */
  predicate LowerHex(s: string) { forall c :: c in s ==> '0' <= c <= '9' || 'a' <= c <= 'f' }

  lemma LowerNibble(c: char, d: char, v: int)
    requires Nibble(c, v) && Nibble(d, v) && LowerHex([c]) && LowerHex([d])
    ensures c == d
  {
    assert c in [c] && d in [d];
    NibbleIff(c, v);
    NibbleIff(d, v);
  }

  lemma OneLowerHex(s: string, t: string, bytes: seq<int>)
    requires DecodesTo(s, bytes) && DecodesTo(t, bytes) && LowerHex(s) && LowerHex(t)
    ensures s == t
  {
    hide Nibble;
    forall j | 0 <= j < |s| ensures s[j] == t[j] {
      var i := j / 2;
      var v := if j % 2 == 0 then bytes[i] / 16 else bytes[i] % 16;
      assert Nibble(s[2 * i], bytes[i] / 16) && Nibble(s[2 * i + 1], bytes[i] % 16);
      assert Nibble(t[2 * i], bytes[i] / 16) && Nibble(t[2 * i + 1], bytes[i] % 16);
      assert s[j] in s && t[j] in t;
      LowerNibble(s[j], t[j], v);
    }
  }

  lemma ByteOf(s: string, bytes: seq<int>, i: nat)
    requires DecodesTo(s, bytes) && i < |bytes|
    ensures 2 * i + 1 < |s| && HexValue(s[2 * i]).Some? && HexValue(s[2 * i + 1]).Some?
    ensures bytes[i] == 16 * HexValue(s[2 * i]).value + HexValue(s[2 * i + 1]).value
  {
    hide HexValue, Nibble;
    NibbleIff(s[2 * i], bytes[i] / 16);
    NibbleIff(s[2 * i + 1], bytes[i] % 16);
  }

  lemma OneDecoding(s: string, b: seq<int>, c: seq<int>)
    requires DecodesTo(s, b) && DecodesTo(s, c)
    ensures b == c
  {
    hide HexValue, DecodesTo;
    LengthOf(s, b);
    LengthOf(s, c);
    forall i | 0 <= i < |b| ensures b[i] == c[i] {
      ByteOf(s, b, i);
      ByteOf(s, c, i);
    }
  }

  lemma {:induction false} SameLines(r: Request, r1: Request, names: seq<string>, fold: string -> string)
    requires r1.host == r.host
    requires forall name :: name in names ==>
               HeaderValue(r1, fold(TrimSpace(name))) == HeaderValue(r, fold(TrimSpace(name)))
    ensures HeaderLines(r1, names, fold) == HeaderLines(r, names, fold)
    decreases |names|
  {
    hide HeaderValue, TrimSpace, CollapseSpaces;
    if |names| > 0 {
      assert names[|names| - 1] in names;
      assert forall name :: name in names[..|names| - 1] ==> name in names;
      SameLines(r, r1, names[..|names| - 1], fold);
    }
  }

  /**
   Of the requests that differ only in the lower-case signature their Authorization headers carry, at most
   one is granted, as long as that header is not among the signed ones itself.
   */
  lemma OneSignature(crypto: Crypto, credentials: seq<Credential>, r: Request, header: string, fold: string -> string,
                     timestamp: string -> bool, timely: string -> bool, c: Credential, g: Reading, c1: Credential,
                     g1: Reading)
    requires GrantedBy(crypto, credentials, r, fold, timestamp, timely, c, g)
    requires GrantedBy(crypto, credentials, r.(headers := r.headers["authorization" := [header]]), fold, timestamp,
                       timely, c1, g1)
    requires g1.a == g.a.(signature := g1.a.signature) && LowerHex(g.a.signature) && LowerHex(g1.a.signature)
    requires forall name :: name in g.names ==> fold(TrimSpace(name)) != "authorization"
    ensures g1.a.signature == g.a.signature && c1 == c
  {
    hide HeaderText, HeaderLines, SignedText, Says, DecodesTo, LowerHex, TrimSpace, Split, Join, Lookup, FirstWith;
    var r1 := r.(headers := r.headers["authorization" := [header]]);
    LookupIff(credentials, g.a.accessKey, c);
    LookupIff(credentials, g.a.accessKey, c1);
    SplitJoin(g.names, ';');
    SplitJoin(g1.names, ';');
    HeaderLinesIff(r, g.names, fold, g.lines);
    HeaderLinesIff(r1, g.names, fold, g1.lines);
    SameLines(r, r1, g.names, fold);
    SameText(crypto, r, r1, g.a, g1.a, g.amzDate, g.lines, PayloadHash(g));
    var expected := crypto.mac(c.secretKey, g.a.date, g.a.region, g.a.service,
                               SignedText(crypto, r, g.a, g.amzDate, g.lines, PayloadHash(g)));
    OneDecoding(expected, g.bytes, g1.bytes);
    OneLowerHex(g.a.signature, g1.a.signature, g.bytes);
  }

  /** The signature is not part of what is signed. */
  lemma SameText(crypto: Crypto, r: Request, r1: Request, a: Authorization, a1: Authorization, amzDate: string,
                 lines: string, payload: string)
    requires r1 == r.(headers := r1.headers) && a1 == a.(signature := a1.signature)
    ensures SignedText(crypto, r1, a1, amzDate, lines, payload) == SignedText(crypto, r, a, amzDate, lines, payload)
  {
  }

  // ---------------------------------------------------------------- both ends together

  ghost predicate KeepsHeaderNames(fold: string -> string) {
    forall name :: name in HEADER_NAMES ==> fold(name) == name
  }

  lemma LineReads(r: Request, name: string, value: string, fold: string -> string)
    requires name != "" && NoSpace(name) && NoSpace(value) && fold(name) == name && HeaderValue(r, name) == Some(value)
    ensures HeaderLine(r, name, fold) == Lines(name + ":" + value + "\n")
  {
    assert name[0] in name && name[|name| - 1] in name;
    TrimSpaceOf("", name, "");
    assert "" + name + "" == name;
    CollapseKeeps(value);
  }

  lemma LinesOfThree(r: Request, a: string, b: string, c: string, fold: string -> string, x: string, y: string,
                     z: string)
    requires HeaderLine(r, a, fold) == Lines(x) && HeaderLine(r, b, fold) == Lines(y)
    requires HeaderLine(r, c, fold) == Lines(z)
    ensures HeaderLines(r, [a, b, c], fold) == Lines(x + y + z)
  {
    hide HeaderLine;
    assert [a, b, c][..2] == [a, b] && [a, b][..1] == [a] && [a][..0] == [];
    assert "" + x == x;
    assert HeaderLines(r, [a], fold) == Lines(x);
    assert HeaderLines(r, [a, b], fold) == Lines(x + y);
  }

  lemma HeaderNames(fold: string -> string)
    requires KeepsHeaderNames(fold)
    ensures Split(SignedHeaders(), ';') == ["host", "x-amz-content-sha256", "x-amz-date"]
    ensures fold("host") == "host" && fold("x-amz-content-sha256") == "x-amz-content-sha256"
    ensures fold("x-amz-date") == "x-amz-date"
    ensures NoSpace("host") && NoSpace("x-amz-content-sha256") && NoSpace("x-amz-date")
  {
    hide Split, Join;
    SplitJoin(HEADER_NAMES, ';');
    assert HEADER_NAMES[0] in HEADER_NAMES && HEADER_NAMES[1] in HEADER_NAMES && HEADER_NAMES[2] in HEADER_NAMES;
  }

  lemma HeaderValues(r: Request, payloadHash: string, amzDate: string)
    requires "x-amz-date" in r.headers && r.headers["x-amz-date"] == [amzDate]
    requires "x-amz-content-sha256" in r.headers && r.headers["x-amz-content-sha256"] == [payloadHash]
    ensures HeaderValue(r, "host") == Some(r.host)
    ensures HeaderValue(r, "x-amz-content-sha256") == Some(payloadHash) && HeaderValue(r, "x-amz-date") == Some(amzDate)
  {
  }

  /** The server rebuilds the header lines the client signed. */
  lemma HeadersAgree(r: Request, payloadHash: string, amzDate: string, fold: string -> string)
    requires NoSpace(r.host) && NoSpace(payloadHash) && NoSpace(amzDate) && KeepsHeaderNames(fold)
    requires "x-amz-date" in r.headers && r.headers["x-amz-date"] == [amzDate]
    requires "x-amz-content-sha256" in r.headers && r.headers["x-amz-content-sha256"] == [payloadHash]
    ensures HeaderLines(r, Split(SignedHeaders(), ';'), fold) == Lines(ClientHeaders(r.host, payloadHash, amzDate))
  {
    hide HeaderLine, HeaderLines, Split, Join, HeaderValue, IsSpace;
    HeaderNames(fold);
    HeaderValues(r, payloadHash, amzDate);
    LineReads(r, "host", r.host, fold);
    LineReads(r, "x-amz-content-sha256", payloadHash, fold);
    LineReads(r, "x-amz-date", amzDate, fold);
    LinesOfThree(r, "host", "x-amz-content-sha256", "x-amz-date", fold,
                 "host" + ":" + r.host + "\n", "x-amz-content-sha256" + ":" + payloadHash + "\n",
                 "x-amz-date" + ":" + amzDate + "\n");
  }

  /**
   A request the client signs with a key the server knows is accepted, for any request, key and region
   that hold no slash or comma, as long as the clocks agree.
   */
  lemma SignedRequestIsAuthentic(crypto: Crypto, credentials: seq<Credential>, credential: Credential, r: Request,
                                 fold: string -> string, timestamp: string -> bool, timely: string -> bool,
                                 payloadHash: string, amzDate: string, region: string)
    requires Lookup(credentials, credential.accessKey) == Some(credential)
    requires Clean(credential.accessKey) && Clean(region) && Clean(Day(amzDate))
    requires NoSpace(r.host) && NoSpace(payloadHash) && payloadHash != "" && NoSpace(amzDate) && KeepsHeaderNames(fold)
    requires timestamp(amzDate) && timely(amzDate)
    requires var signature := ClientSignature(crypto, r, payloadHash, amzDate, credential.secretKey, region);
             IsHex(signature) && Printable(signature)
    ensures Authentic(crypto, credentials,
                      Signed(crypto, r, payloadHash, amzDate, credential.accessKey, credential.secretKey, region),
                      fold, timestamp, timely, credential)
  {
    hide HeaderLines, StringToSign, Parsed, Printed, SignedHeaders, ClientHeaders, Join, Split;
    var signed := Signed(crypto, r, payloadHash, amzDate, credential.accessKey, credential.secretKey, region);
    var signature := ClientSignature(crypto, r, payloadHash, amzDate, credential.secretKey, region);
    PrintedReads(credential.accessKey, Day(amzDate), region, signature);
    assert Get(signed, "authorization") == Printed(credential.accessKey, Day(amzDate), region, signature);
    assert Get(signed, "x-amz-date") == amzDate && Get(signed, "x-amz-content-sha256") == payloadHash;
    HeadersAgree(signed, payloadHash, amzDate, fold);
    var a := Sent(credential.accessKey, Day(amzDate), region, signature);
    assert Expected(crypto, credential, signed, a, ClientHeaders(r.host, payloadHash, amzDate)) == signature;
  }

  /** So it is granted to its credential, written out. */
  lemma SignedRequestIsGranted(crypto: Crypto, credentials: seq<Credential>, credential: Credential, r: Request,
                               fold: string -> string, timestamp: string -> bool, timely: string -> bool,
                               payloadHash: string, amzDate: string, region: string)
    requires FirstWith(credentials, credential.accessKey, credential)
    requires Clean(credential.accessKey) && Clean(region) && Clean(Day(amzDate))
    requires NoSpace(r.host) && NoSpace(payloadHash) && payloadHash != "" && NoSpace(amzDate) && KeepsHeaderNames(fold)
    requires timestamp(amzDate) && timely(amzDate)
    requires var signature := ClientSignature(crypto, r, payloadHash, amzDate, credential.secretKey, region);
             IsHex(signature) && Printable(signature)
    ensures Granted(crypto, credentials,
                    Signed(crypto, r, payloadHash, amzDate, credential.accessKey, credential.secretKey, region),
                    fold, timestamp, timely, credential)
  {
    hide Authentic, Granted, Signed, ClientSignature, FirstWith, Lookup;
    LookupIff(credentials, credential.accessKey, credential);
    SignedRequestIsAuthentic(crypto, credentials, credential, r, fold, timestamp, timely, payloadHash, amzDate, region);
    AuthenticIff(crypto, credentials,
                 Signed(crypto, r, payloadHash, amzDate, credential.accessKey, credential.secretKey, region),
                 fold, timestamp, timely, credential);
  }
}
