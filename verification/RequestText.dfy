/** The texts that the request parser of src/http/HttpDef.cpp accepts, written out: either version, either line end,
    free spaces around the colons, any part of the target percent-encoded. */
module RequestText {
  import opened Wrappers
  import opened HttpText
  import opened HttpRequest
  import opened RequestRoundTrip

  /** The uri of a decoded target: everything in front of its first '?' or NUL. */
  predicate IsUri(t: seq<char>, uri: seq<char>) {
    && uri <= t && (forall i | 0 <= i < |uri| :: uri[i] != '?' && uri[i] != '\0')
    && (|uri| < |t| ==> t[|uri|] == '?' || t[|uri|] == '\0')
  }

  /** Its query: what follows the last '?', up to a NUL; nothing without a '?'. */
  ghost predicate IsQuery(t: seq<char>, query: seq<char>) {
    if forall i | 0 <= i < |t| :: t[i] != '?' then query == []
    else exists k | 0 <= k < |t| && t[k] == '?' && (forall i | k < i < |t| :: t[i] != '?') :: IsUri(t[k + 1..], query)
  }

  lemma TargetMeans(t: seq<char>)
    ensures IsUri(t, UpToStop(t)) && IsQuery(t, QueryOf(t))
  {
    UpToStopIsUri(t);
    AfterLastMarkSplits(t);
    match AfterLastMark(t) {
      case None =>
      case Some(q) =>
        var k := |t| - |q| - 1;
        UpToStopIsUri(q);
        assert t[k] == '?' && t[k + 1..] == q;
        forall i | k < i < |t| ensures t[i] != '?' {
          assert t[i] == q[i - k - 1];
        }
    }
  }

  lemma UpToStopIsUri(t: seq<char>)
    ensures IsUri(t, UpToStop(t))
  {
    UpToStopPrefix(t);
  }

  /** The method that a name stands for. */
  function Named(name: seq<char>): Option<Method> {
    if name == "GET" then Some(GET)
    else if name == "POST" then Some(POST)
    else if name == "OPTIONS" then Some(OPTIONS)
    else if name == "HEAD" then Some(HEAD)
    else None
  }

  predicate Without(s: seq<char>, c: char) {
    forall i | 0 <= i < |s| :: s[i] != c
  }

  // ---------- stage by stage ----------

  lemma MethodRead(st: Parser, s: seq<char>, name: seq<char>)
    requires Without(name, ' ') && At(s, 0, name) && At(s, |name|, " ")
    ensures MethodStage(st, s, 0) ==
      match Named(name)
      case None => st.(progress := InvalidMethod)
      case Some(m) => UriStage(st.(method_ := m, progress := ParsingURI, bytes := st.bytes + |name| + 1), s, |name| + 1)
  {
    hide UriStage;
    AtIndex(s, |name|, " ", 0);
    forall i | 0 <= i < |name| ensures s[i] != ' ' {
      AtIndex(s, 0, name, i);
    }
    FindIs(s, 0, |s|, ' ', |name|);
    AtSlice(s, 0, name);
  }

  lemma UriRead(st: Parser, s: seq<char>, p: nat, t: seq<char>, how: seq<Spelling>)
    requires SpellingOk(t, how) && At(s, p, Spell(t, how)) && At(s, p + |Spell(t, how)|, " ") && st.query == []
    ensures var n := |Spell(t, how)|;
      UriStage(st, s, p) ==
        VersionStage(
          st.(uri := UpToStop(t), query := QueryOf(t), progress := ParsingVersion, bytes := st.bytes + n + 1),
          s, p + n + 1)
  {
    hide VersionStage, UpToStop, AfterLastMark;
    var n := |Spell(t, how)|;
    SpellHasNoSpace(t, how);
    AtIndex(s, p + n, " ", 0);
    forall i | p <= i < p + n ensures s[i] != ' ' {
      AtIndex(s, p, Spell(t, how), i - p);
    }
    FindIs(s, p, |s|, ' ', p + n);
    EscapeRoundTrip(s, p, t, how);
  }

  /** A version, well-formed or not, that ends where its line does. */
  predicate VersionOk(version: seq<char>) {
    version != [] && Without(version, '\n') && version[|version| - 1] != '\r'
  }

  lemma VersionRead(st: Parser, s: seq<char>, p: nat, version: seq<char>, eol: seq<char>)
    requires VersionOk(version) && IsEol(eol) && At(s, p, version) && At(s, p + |version|, eol)
    ensures var n := |version| + |eol|;
      if version == "HTTP/1.1" then
        VersionStage(st, s, p)
          == HeaderStage(st.(major := 1, minor := 1, progress := ParsingHeaders, bytes := st.bytes + n), s, p + n)
      else if version == "HTTP/1.0" then
        VersionStage(st, s, p)
          == HeaderStage(st.(major := 1, minor := 0, progress := ParsingHeaders, bytes := st.bytes + n), s, p + n)
      else VersionStage(st, s, p).progress.InvalidVersion?
  {
    hide HeaderStage;
    var q := p + |version|;
    var f := q + |eol| - 1;
    AtIndex(s, q, eol, 0);
    AtIndex(s, q, eol, |eol| - 1);
    AtIndex(s, p, version, |version| - 1);
    forall i | p <= i < f ensures s[i] != '\n' {
      if i < q {
        AtIndex(s, p, version, i - p);
      }
    }
    FindIs(s, p, |s|, '\n', f);
    AtSlice(s, p, version);
    assert LineEnd(s, f) == q;
  }

  lemma {:induction false} FieldsRead(st: Parser, s: seq<char>, p: nat, fs: seq<FieldText>, eol: seq<char>)
    requires IsEol(eol) && At(s, p, FieldLines(fs, eol)) && forall i | 0 <= i < |fs| :: FieldTextOk(fs[i])
    ensures HeaderStage(st, s, p) ==
      HeaderStage(st.(headers := Enter(st.headers, AllMeant(fs, eol)), bytes := st.bytes + |FieldLines(fs, eol)|),
                  s, p + |FieldLines(fs, eol)|)
    decreases fs
  {
    hide NextLine, FieldLine, FieldTextOk, Meant, IsEol, At;
    if fs != [] {
      var h, n := Meant(fs[0], eol), |FieldLine(fs[0], eol)|;
      AtSplit(s, p, FieldLine(fs[0], eol), FieldLines(fs[1..], eol));
      NextLineField(s, p, fs[0], eol);
      assert AllMeant(fs, eol)[1..] == AllMeant(fs[1..], eol);
      AtFits(s, p, FieldLine(fs[0], eol));
      FieldsRead(st.(headers := st.headers[h.key := h.value], bytes := st.bytes + n), s, p + n, fs[1..], eol);
    } else {
      NoFields(st, eol);
    }
  }

  lemma NoFields(st: Parser, eol: seq<char>)
    ensures st.(headers := Enter(st.headers, AllMeant([], eol)), bytes := st.bytes + |FieldLines([], eol)|) == st
  {
  }

  lemma HeadersRead(st: Parser, s: seq<char>, p: nat, fs: seq<FieldText>, eol: seq<char>, end: seq<char>)
    requires IsEol(eol) && IsEol(end) && forall i | 0 <= i < |fs| :: FieldTextOk(fs[i])
    requires At(s, p, FieldLines(fs, eol)) && At(s, p + |FieldLines(fs, eol)|, end)
    ensures HeaderStage(st, s, p) ==
      st.(progress := Good, headers := Enter(st.headers, AllMeant(fs, eol)),
          bytes := st.bytes + |FieldLines(fs, eol)| + |end|)
  {
    hide NextLine, FieldLines, FieldTextOk, AllMeant, At, IsEol, Enter;
    var q := p + |FieldLines(fs, eol)|;
    FieldsRead(st, s, p, fs, eol);
    NextLineEmpty(s, q, end);
    AtFits(s, q, end);
  }

  // ---------- the whole text ----------

  /** The head of a request, as it may be written. */
  function HeadText(name: seq<char>, target: seq<char>, version: seq<char>, fields: seq<char>, eol: seq<char>,
                    end: seq<char>): seq<char> {
    name + " " + target + " " + version + eol + fields + end
  }

  lemma HeadParts(s: seq<char>, name: seq<char>, target: seq<char>, version: seq<char>, fields: seq<char>,
                  eol: seq<char>, end: seq<char>, tail: seq<char>)
    requires s == HeadText(name, target, version, fields, eol, end) + tail
    ensures At(s, 0, name) && At(s, |name|, " ") && At(s, |name| + 1, target) && At(s, |name| + 1 + |target|, " ")
    ensures var v := |name| + |target| + 2;
      && At(s, v, version) && At(s, v + |version|, eol) && At(s, v + |version| + |eol|, fields)
      && At(s, v + |version| + |eol| + |fields|, end)
  {
    hide At;
    HeadNests(name, target, version, fields, eol, end, tail);
    var rest := version + (eol + (fields + (end + tail)));
    AtSelf(s);
    SplitThree(s, 0, name, " ", target + (" " + rest));
    SplitThree(s, |name| + 1, target, " ", rest);
    var v := |name| + |target| + 2;
    SplitThree(s, v, version, eol, fields + (end + tail));
    SplitThree(s, v + |version| + |eol|, fields, end, tail);
  }

  lemma HeadNests(a: seq<char>, b: seq<char>, c: seq<char>, d: seq<char>, e: seq<char>, f: seq<char>, g: seq<char>)
    ensures HeadText(a, b, c, d, e, f) + g == a + (" " + (b + (" " + (c + (e + (d + (f + g)))))))
  {
  }

  /** A request line with a known method and version is read, and the header section follows. */
  lemma HeadRead(s: seq<char>, name: seq<char>, t: seq<char>, how: seq<Spelling>, version: seq<char>,
                 fields: seq<char>, eol: seq<char>, end: seq<char>, tail: seq<char>)
    returns (st: Parser, p: nat)
    requires SpellingOk(t, how) && s == HeadText(name, Spell(t, how), version, fields, eol, end) + tail
    requires name == "GET" || name == "POST" || name == "OPTIONS" || name == "HEAD"
    requires IsEol(eol) && (version == "HTTP/1.1" || version == "HTTP/1.0")
    ensures Parse(START, s) == HeaderStage(st, s, p) && At(s, p, fields) && At(s, p + |fields|, end)
    ensures Named(name).Some? && p == |name| + |Spell(t, how)| + 10 + |eol|
    ensures st == Parser(ParsingHeaders, p, Named(name).value, UpToStop(t), QueryOf(t), 1,
                         if version == "HTTP/1.1" then 1 else 0, map[])
  {
    hide HeaderStage, VersionStage, UriStage, MethodStage, At, Spell, UpToStop, AfterLastMark, QueryOf, IsEol,
      SpellingOk;
    var v := |name| + |Spell(t, how)| + 2;
    HeadParts(s, name, Spell(t, how), version, fields, eol, end, tail);
    MethodRead(START, s, name);
    var st1 := START.(method_ := Named(name).value, progress := ParsingURI, bytes := |name| + 1);
    UriRead(st1, s, |name| + 1, t, how);
    var st2 := st1.(uri := UpToStop(t), query := QueryOf(t), progress := ParsingVersion, bytes := v);
    VersionRead(st2, s, v, version, eol);
    p := v + 8 + |eol|;
    st := st2.(major := 1, minor := if version == "HTTP/1.1" then 1 else 0, progress := ParsingHeaders, bytes := p);
  }

  /** Another method or version ends it at once. */
  lemma HeadRefused(s: seq<char>, name: seq<char>, t: seq<char>, how: seq<Spelling>, version: seq<char>,
                    fields: seq<char>, eol: seq<char>, end: seq<char>, tail: seq<char>)
    requires SpellingOk(t, how) && s == HeadText(name, Spell(t, how), version, fields, eol, end) + tail
    requires Without(name, ' ') && IsEol(eol) && VersionOk(version)
    requires Named(name).None? || (version != "HTTP/1.1" && version != "HTTP/1.0")
    ensures if Named(name).None? then Parse(START, s) == START.(progress := InvalidMethod)
            else Parse(START, s).progress.InvalidVersion?
  {
    hide HeaderStage, VersionStage, UriStage, MethodStage, At, Spell, UpToStop, AfterLastMark, QueryOf, IsEol,
      SpellingOk, Without, VersionOk;
    HeadParts(s, name, Spell(t, how), version, fields, eol, end, tail);
    MethodRead(START, s, name);
    if Named(name).Some? {
      var st := START.(method_ := Named(name).value, progress := ParsingURI, bytes := |name| + 1);
      var v := |name| + |Spell(t, how)| + 2;
      UriRead(st, s, |name| + 1, t, how);
      VersionRead(
        st.(uri := UpToStop(t), query := QueryOf(t), progress := ParsingVersion, bytes := v), s, v, version, eol);
    }
  }

  /** What every such text is parsed to, whatever follows it. An unknown method and any other version are refused;
      everything else is read for what it says, and exactly the head is consumed. */
  lemma RequestTextParses(name: seq<char>, t: seq<char>, how: seq<Spelling>, version: seq<char>,
                          fs: seq<FieldText>, eol: seq<char>, end: seq<char>, tail: seq<char>)
    requires Without(name, ' ') && SpellingOk(t, how) && VersionOk(version)
    requires IsEol(eol) && IsEol(end) && forall i | 0 <= i < |fs| :: FieldTextOk(fs[i])
    ensures var head := HeadText(name, Spell(t, how), version, FieldLines(fs, eol), eol, end);
      var r := Parse(START, head + tail);
      if name != "GET" && name != "POST" && name != "OPTIONS" && name != "HEAD" then
        r == START.(progress := InvalidMethod)
      else if version != "HTTP/1.1" && version != "HTTP/1.0" then r.progress.InvalidVersion?
      else
        && r.progress.Good? && r.bytes == |head| && IsUri(t, r.uri) && IsQuery(t, r.query)
        && r.major == 1 && r.minor == (if version == "HTTP/1.1" then 1 else 0)
        && r.headers == Enter(map[], AllMeant(fs, eol))
        && (r.method_.GET? <==> name == "GET") && (r.method_.POST? <==> name == "POST")
        && (r.method_.OPTIONS? <==> name == "OPTIONS") && (r.method_.HEAD? <==> name == "HEAD")
  {
    hide HeaderStage, VersionStage, UriStage, MethodStage, At, Spell, FieldLines, AllMeant, Enter, UpToStop,
      AfterLastMark, QueryOf, IsUri, IsQuery, Without, FieldTextOk, IsEol, SpellingOk, VersionOk;
    var fields := FieldLines(fs, eol);
    var s := HeadText(name, Spell(t, how), version, fields, eol, end) + tail;
    TargetMeans(t);
    if Named(name).None? || (version != "HTTP/1.1" && version != "HTTP/1.0") {
      HeadRefused(s, name, t, how, version, fields, eol, end, tail);
    } else {
      var st, p := HeadRead(s, name, t, how, version, fields, eol, end, tail);
      HeadersRead(st, s, p, fs, eol, end);
    }
  }

  lemma LineBreaks(st: Parser, s: seq<char>, p: nat, fs: seq<FieldText>, line: seq<char>, eol: seq<char>)
    requires IsEol(eol) && forall i | 0 <= i < |fs| :: FieldTextOk(fs[i])
    requires Without(line, '\n') && |line| + |eol| > 2 && NoField(LineText(line, eol))
    requires At(s, p, FieldLines(fs, eol)) && At(s, p + |FieldLines(fs, eol)|, line + eol)
    ensures HeaderStage(st, s, p).progress.Undefined?
  {
    hide NextLine, FieldLines, FieldTextOk, AllMeant, At, IsEol, Enter, NoField, LineText;
    var q := p + |FieldLines(fs, eol)|;
    FieldsRead(st, s, p, fs, eol);
    AtFits(s, q, line + eol);
    BrokenIff(s, q, line, eol);
  }

  /** A header line of more than one character that is no field makes the parser throw or read outside of the line,
      whatever came before and whatever follows. */
  lemma BrokenLineIsUndefined(name: seq<char>, t: seq<char>, how: seq<Spelling>, version: seq<char>,
                              fs: seq<FieldText>, eol: seq<char>, line: seq<char>, rest: seq<char>)
    requires name == "GET" || name == "POST" || name == "OPTIONS" || name == "HEAD"
    requires SpellingOk(t, how) && (version == "HTTP/1.1" || version == "HTTP/1.0")
    requires IsEol(eol) && forall i | 0 <= i < |fs| :: FieldTextOk(fs[i])
    requires Without(line, '\n') && |line| + |eol| > 2 && NoField(LineText(line, eol))
    ensures var head := HeadText(name, Spell(t, how), version, FieldLines(fs, eol), eol, line + eol);
      Parse(START, head + rest).progress.Undefined?
  {
    hide HeaderStage, Parse, At, Spell, FieldLines, FieldTextOk, IsEol, SpellingOk, NoField, LineText, HeadText;
    var s := HeadText(name, Spell(t, how), version, FieldLines(fs, eol), eol, line + eol) + rest;
    var st, p := HeadRead(s, name, t, how, version, FieldLines(fs, eol), eol, line + eol, rest);
    LineBreaks(st, s, p, fs, line, eol);
  }

  // ---------- what the client prints ----------

  /** The fields of a printed header section. */
  function AsPrinted(hs: seq<Header>): seq<FieldText> {
    if hs == [] then [] else [FieldText(hs[0].key, "", " ", hs[0].value)] + AsPrinted(hs[1..])
  }

  lemma {:induction false} PrintedAreFields(hs: seq<Header>)
    ensures PrintHeaders(hs) == FieldLines(AsPrinted(hs), "\r\n")
  {
    hide PrintHeader, FieldLine;
    if hs != [] {
      PrintedIsField(hs[0]);
      PrintedAreFields(hs[1..]);
      assert AsPrinted(hs)[1..] == AsPrinted(hs[1..]);
    }
  }

  /** A printed head is one of these texts. */
  lemma PrintedIsText(r: Request, hs: seq<Header>)
    ensures PrintHead(r, hs) ==
      HeadText(match r.method_ case GET => "GET" case POST => "POST" case OPTIONS => "OPTIONS" case HEAD => "HEAD"
                 case INVALID_METHOD => "",
               r.uri + (if r.query == [] then "" else "?" + r.query), "HTTP/1.1",
               FieldLines(AsPrinted(hs), "\r\n"), "\r\n", "\r\n")
  {
    hide PrintHeaders, FieldLines, AsPrinted;
    PrintedAreFields(hs);
    TargetIsText(r.uri, r.query);
    LineIsText(MethodName(r.method_), Target(r.uri, r.query));
  }

  lemma TargetIsText(uri: seq<char>, query: seq<char>)
    ensures Target(uri, query) == uri + (if query == [] then "" else "?" + query)
  {
    assert uri + "" == uri && uri + "?" + query == uri + ("?" + query);
  }

  lemma LineIsText(name: seq<char>, target: seq<char>)
    ensures name + " " + target + " HTTP/1.1\r\n" == name + " " + target + " " + "HTTP/1.1" + "\r\n"
  {
    assert " HTTP/1.1\r\n" == " " + "HTTP/1.1" + "\r\n";
  }
}
