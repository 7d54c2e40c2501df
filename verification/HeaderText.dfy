/** The canonical header lines of a request, written out. */
module HeaderTexts {
  import opened Metadata
  import opened SigV4
  import opened Text

  /** These are the words of s, in order, with nothing but white space around and between them. */
  ghost predicate Spread(s: string, words: seq<string>)
    decreases |words|
  {
    if |words| == 0 then Spaces(s)
    else exists lead, rest ::
      && s == lead + words[0] + rest && Spaces(lead) && words[0] != "" && NoSpace(words[0])
      && (rest != "" ==> IsSpace(rest[0])) && Spread(rest, words[1..])
  }

  lemma {:induction false} WordOf(w: string, rest: string)
    requires NoSpace(w) && (rest != "" ==> IsSpace(rest[0]))
    ensures Word(w + rest) == |w|
    decreases |w|
  {
    if |w| == 0 {
      assert w + rest == rest;
    } else {
      assert w[0] in w;
      assert (w + rest)[1..] == w[1..] + rest;
      WordOf(w[1..], rest);
    }
  }

  lemma {:induction false} WordShape(s: string)
    ensures Word(s) <= |s| && NoSpace(s[..Word(s)]) && (Word(s) < |s| ==> IsSpace(s[Word(s)]))
    decreases |s|
  {
    if |s| > 0 && !IsSpace(s[0]) {
      WordShape(s[1..]);
      assert s[..Word(s)] == [s[0]] + s[1..][..Word(s[1..])];
    }
  }

  lemma WordsStep(lead: string, w: string, rest: string)
    requires Spaces(lead) && w != "" && NoSpace(w) && (rest != "" ==> IsSpace(rest[0]))
    ensures Words(lead + w + rest) == [w] + Words(rest)
  {
    var t := w + rest;
    assert lead + w + rest == lead + t && w[0] in w && t[0] == w[0];
    TrimLeftSkips(lead, t);
    WordOf(w, rest);
    assert t[..|w|] == w && t[|w|..] == rest;
  }

  lemma NoWords(s: string)
    requires Spaces(s)
    ensures Words(s) == []
  {
    AllSpaceTrims(s);
  }

  lemma {:induction false} SpreadIsWords(s: string, words: seq<string>)
    requires Spread(s, words)
    ensures words == Words(s)
    decreases |words|
  {
    hide Words, Spaces, NoSpace;
    if |words| == 0 {
      NoWords(s);
    } else {
      var lead, rest :|
        && s == lead + words[0] + rest && Spaces(lead) && words[0] != "" && NoSpace(words[0])
        && (rest != "" ==> IsSpace(rest[0])) && Spread(rest, words[1..]);
      WordsStep(lead, words[0], rest);
      SpreadIsWords(rest, words[1..]);
      assert words == [words[0]] + words[1..];
    }
  }

  lemma FirstWord(s: string) returns (lead: string, w: string, rest: string)
    requires Words(s) != []
    ensures s == lead + w + rest && Spaces(lead) && w != "" && NoSpace(w) && (rest != "" ==> IsSpace(rest[0]))
    ensures Words(s) == [w] + Words(rest) && |rest| < |s|
  {
    lead := TrimLeftShape(s);
    var t := TrimLeft(s);
    WordShape(t);
    w, rest := t[..Word(t)], t[Word(t)..];
    assert w + rest == t;
    assert s == lead + w + rest;
  }

  lemma {:induction false} WordsSpread(s: string)
    ensures Spread(s, Words(s))
    decreases |s|
  {
    if Words(s) == [] {
      var lead := TrimLeftShape(s);
      assert s == lead;
    } else {
      hide Words, Spaces, NoSpace;
      var lead, w, rest := FirstWord(s);
      WordsSpread(rest);
      assert Words(s)[1..] == Words(rest) && Words(s)[0] == w;
    }
  }

  /** The value a header line carries: all values of the name, or the host. */
  ghost predicate Carries(r: Request, name: string, value: string) {
    if name == "host" then value == r.host
    else name in r.headers && r.headers[name] != [] && value == Join(r.headers[name], ',')
  }

  /** name:value and a line end, the name trimmed and in lower case, the words of the value one space apart. */
  ghost predicate LineOf(r: Request, rawName: string, fold: string -> string, line: string) {
    exists lead, core, tail, value, words ::
      && rawName == lead + core + tail && Spaces(lead) && Spaces(tail) && Tight(core)
      && fold(core) != "" && Carries(r, fold(core), value) && Spread(value, words)
      && line == fold(core) + ":" + Join(words, ' ') + "\n"
  }

  function Flat(lines: seq<string>): string {
    if |lines| == 0 then "" else Flat(lines[..|lines| - 1]) + lines[|lines| - 1]
  }

  /** One line for each name, in order. */
  ghost predicate HeaderText(r: Request, names: seq<string>, fold: string -> string, text: string) {
    exists lines :: |lines| == |names| && text == Flat(lines) && AllLines(r, names, fold, lines)
  }

  ghost predicate AllLines(r: Request, names: seq<string>, fold: string -> string, lines: seq<string>)
    requires |lines| == |names|
  {
    forall i :: 0 <= i < |names| ==> LineOf(r, names[i], fold, lines[i])
  }

  lemma CarriesIff(r: Request, name: string, value: string)
    ensures Carries(r, name, value) <==> HeaderValue(r, name) == Some(value)
  {
  }

  lemma LineIff(r: Request, rawName: string, fold: string -> string, line: string)
    ensures HeaderLine(r, rawName, fold) == Lines(line) <==> LineOf(r, rawName, fold, line)
  {
    hide HeaderValue, Carries, Spread, Words, Spaces, Tight, Join, TrimSpace;
    var core := TrimSpace(rawName);
    if HeaderLine(r, rawName, fold) == Lines(line) {
      var lead, tail := TrimSpaceShape(rawName);
      var value := HeaderValue(r, fold(core)).value;
      CarriesIff(r, fold(core), value);
      WordsSpread(value);
      assert rawName == lead + core + tail;
    }
    if LineOf(r, rawName, fold, line) {
      var lead, core', tail, value, words :|
        && rawName == lead + core' + tail && Spaces(lead) && Spaces(tail) && Tight(core')
        && fold(core') != "" && Carries(r, fold(core'), value) && Spread(value, words)
        && line == fold(core') + ":" + Join(words, ' ') + "\n";
      TrimSpaceOf(lead, core', tail);
      CarriesIff(r, fold(core'), value);
      SpreadIsWords(value, words);
    }
  }

  lemma {:induction false} LinesOfText(r: Request, names: seq<string>, fold: string -> string)
    returns (lines: seq<string>)
    requires HeaderLines(r, names, fold).Lines?
    ensures |lines| == |names| && AllLines(r, names, fold, lines) && HeaderLines(r, names, fold).text == Flat(lines)
    decreases |names|
  {
    hide HeaderLine, LineOf;
    if |names| == 0 {
      lines := [];
    } else {
      var n := |names| - 1;
      var before := LinesOfText(r, names[..n], fold);
      var line := HeaderLine(r, names[n], fold).text;
      LineIff(r, names[n], fold, line);
      lines := before + [line];
      assert lines[..n] == before;
    }
  }

  lemma {:induction false} TextOfLines(r: Request, names: seq<string>, fold: string -> string, lines: seq<string>)
    requires |lines| == |names| && AllLines(r, names, fold, lines)
    ensures HeaderLines(r, names, fold) == Lines(Flat(lines))
    decreases |names|
  {
    hide HeaderLine, LineOf;
    if |names| > 0 {
      var n := |names| - 1;
      TextOfLines(r, names[..n], fold, lines[..n]);
      LineIff(r, names[n], fold, lines[n]);
    }
  }

  /** The server's header lines are the text written out like this, whenever there is one. */
  lemma HeaderLinesIff(r: Request, names: seq<string>, fold: string -> string, text: string)
    ensures HeaderLines(r, names, fold) == Lines(text) <==> HeaderText(r, names, fold, text)
  {
    hide HeaderLines, AllLines, Flat;
    if HeaderLines(r, names, fold) == Lines(text) {
      var lines := LinesOfText(r, names, fold);
    }
    if HeaderText(r, names, fold, text) {
      var lines :| |lines| == |names| && text == Flat(lines) && AllLines(r, names, fold, lines);
      TextOfLines(r, names, fold, lines);
    }
  }
}
