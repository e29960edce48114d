/** Printing a request and parsing it back (src/http/HttpDef.cpp): exactly which requests survive. */
module RequestRoundTrip {
  import opened Wrappers
  import opened HttpText
  import opened HttpRequest

  predicate PlainChar(c: char) {
    c != ' ' && c != '%' && c != '?' && c != '\0'
  }

  predicate TextOk(t: seq<char>) {
    forall i | 0 <= i < |t| :: PlainChar(t[i])
  }

  predicate WellFormed(r: Request) {
    r.method_ != INVALID_METHOD && TextOk(r.uri) && TextOk(r.query) && HeadersOk(r.headers)
  }

  /** The parser that has read exactly the request r, whose head is n bytes long. */
  function Parsed(r: Request, n: nat): Parser {
    Parser(Good, n, r.method_, r.uri, r.query, 1, 1, r.headers)
  }

  // ---------- the request target ----------

  lemma {:induction false} DecodePlain(s: seq<char>, i: nat, n: nat)
    requires i <= n <= |s| && forall k | i <= k < n :: s[k] != '%'
    ensures Decode(s, i, n) == Some(s[i..n])
    decreases n - i
  {
    if i < n {
      DecodePlain(s, i + 1, n);
      assert s[i..n] == [s[i]] + s[i + 1..n];
    } else {
      assert s[i..n] == [];
    }
  }

  /** Decoding never lengthens, and when it does not shorten, only the last character can have been a '%'. */
  lemma {:induction false} DecodeLength(s: seq<char>, i: nat, n: nat)
    requires i <= n <= |s| && Decode(s, i, n).Some?
    ensures var t := Decode(s, i, n).value;
      && |t| <= n - i
      && (|t| == n - i ==>
            && (forall k | i <= k < n && (k < n - 1 || s[k] != '%') :: t[k - i] == s[k] != '%')
            && (i < n && s[n - 1] == '%' ==> n + 1 < |s| && t[n - 1 - i] == ParseHex(s[n], s[n + 1])))
    decreases n - i
  {
    if i < n {
      var t := Decode(s, i, n).value;
      if s[i] != '%' {
        DecodeLength(s, i + 1, n);
        forall k | |t| == n - i && i <= k < n && (k < n - 1 || s[k] != '%') ensures t[k - i] == s[k] != '%' {
          if k > i {
            assert t[k - i] == Decode(s, i + 1, n).value[k - (i + 1)];
          }
        }
      } else if i + 3 <= n {
        DecodeLength(s, i + 3, n);
      } else {
        assert Decode(s, i + 3, n) == Some([]);
      }
    }
  }

  predicate NoStop(t: seq<char>) {
    forall i | 0 <= i < |t| :: t[i] != '?' && t[i] != '\0'
  }

  lemma {:induction false} UpToStopPlain(u: seq<char>, rest: seq<char>)
    requires NoStop(u) && (rest == [] || rest[0] == '?' || rest[0] == '\0')
    ensures UpToStop(u + rest) == u
  {
    if u == [] {
      assert u + rest == rest;
    } else {
      assert (u + rest)[1..] == u[1..] + rest;
      UpToStopPlain(u[1..], rest);
    }
  }

  lemma {:induction false} UpToStopPrefix(t: seq<char>)
    ensures |UpToStop(t)| <= |t| && t[..|UpToStop(t)|] == UpToStop(t) && NoStop(UpToStop(t))
    ensures |UpToStop(t)| < |t| ==> t[|UpToStop(t)|] == '?' || t[|UpToStop(t)|] == '\0'
  {
    if t != [] && t[0] != '?' && t[0] != '\0' {
      UpToStopPrefix(t[1..]);
    }
  }

  lemma {:induction false} AfterLastMarkSplits(t: seq<char>)
    ensures match AfterLastMark(t)
      case None => !Contains(t, '?')
      case Some(q) => |q| < |t| && t == t[..|t| - |q| - 1] + "?" + q && !Contains(q, '?')
  {
    if t != [] && t[|t| - 1] != '?' {
      AfterLastMarkSplits(t[..|t| - 1]);
    }
  }

  lemma {:induction false} AfterLastMarkPlain(u: seq<char>, q: seq<char>)
    requires !Contains(q, '?')
    ensures AfterLastMark(u + "?" + q) == Some(q)
    decreases |q|
  {
    var t := u + "?" + q;
    var k := |t| - 1;
    if q != [] {
      var q1 := q[..|q| - 1];
      assert t[..k] == u + "?" + q1;
      assert t[k] == q[|q| - 1];
      AfterLastMarkPlain(u, q1);
      assert q1 + [t[k]] == q;
    } else {
      assert t[k] == '?';
    }
  }

  lemma {:induction false} NoMark(t: seq<char>)
    requires !Contains(t, '?')
    ensures AfterLastMark(t) == None
  {
    if t != [] {
      NoMark(t[..|t| - 1]);
    }
  }

  /** The query that ParseURI takes from a decoded target; the uri is UpToStop. */
  function QueryOf(t: seq<char>): seq<char> {
    match AfterLastMark(t)
    case None => []
    case Some(q) => UpToStop(q)
  }

  lemma TargetSplits(uri: seq<char>, query: seq<char>)
    requires TextOk(uri) && TextOk(query)
    ensures UpToStop(Target(uri, query)) == uri && QueryOf(Target(uri, query)) == query
  {
    if query == [] {
      UpToStopPlain(uri, []);
      assert uri + [] == uri;
      NoMark(uri);
    } else {
      UpToStopPlain(uri, "?" + query);
      assert uri + ("?" + query) == uri + "?" + query;
      AfterLastMarkPlain(uri, query);
      UpToStopPlain(query, []);
      assert query + [] == query;
    }
  }

  /** The parts of a target are never longer than the target, and when they are as long, they determine it. */
  lemma TargetLength(t: seq<char>)
    ensures |Target(UpToStop(t), QueryOf(t))| <= |t|
    ensures |Target(UpToStop(t), QueryOf(t))| == |t| ==> t == Target(UpToStop(t), QueryOf(t))
    ensures NoStop(UpToStop(t)) && NoStop(QueryOf(t))
  {
    hide UpToStop, AfterLastMark;
    UpToStopPrefix(t);
    AfterLastMarkSplits(t);
    if AfterLastMark(t).Some? {
      var q := AfterLastMark(t).value;
      var n := |t| - |q| - 1;
      UpToStopPrefix(q);
      assert t[n] == '?';
      assert forall i | 0 <= i < |UpToStop(t)| :: t[..|UpToStop(t)|][i] == t[i] != '?';
      if |QueryOf(t)| == |q| && |UpToStop(t)| == n {
        assert t[..n] == UpToStop(t) && q == QueryOf(t);
      }
    }
  }

  // ---------- where the parts of a printed head stand ----------

  /** The method, the target, the version and the header section of a printed head. */
  lemma HeadLayout(r: Request, hs: seq<Header>, tail: seq<char>)
    ensures var s, m, t := PrintHead(r, hs) + tail, |MethodName(r.method_)|, Target(r.uri, r.query);
      && At(s, 0, MethodName(r.method_)) && At(s, m, " ")
      && At(s, m + 1, t) && At(s, m + 1 + |t|, " ")
      && At(s, m + |t| + 2, "HTTP/1.1\r\n")
      && At(s, m + |t| + 12, PrintHeaders(hs) + "\r\n")
      && |PrintHead(r, hs)| == m + |t| + 14 + |PrintHeaders(hs)|
  {
    hide At, PrintHeaders, MethodName, Target;
    var name, t, headers := MethodName(r.method_), Target(r.uri, r.query), PrintHeaders(hs);
    HeadNests(name, t, headers, tail);
    NestedParts(PrintHead(r, hs) + tail, name, t, headers + "\r\n", tail);
  }

  lemma NestedParts(s: seq<char>, name: seq<char>, t: seq<char>, end: seq<char>, tail: seq<char>)
    requires s == name + (" " + (t + (" " + ("HTTP/1.1\r\n" + (end + tail)))))
    ensures At(s, 0, name) && At(s, |name|, " ") && At(s, |name| + 1, t) && At(s, |name| + 1 + |t|, " ")
    ensures At(s, |name| + |t| + 2, "HTTP/1.1\r\n") && At(s, |name| + |t| + 12, end)
  {
    hide At;
    var s4 := "HTTP/1.1\r\n" + (end + tail);
    var s2 := t + (" " + s4);
    AtSelf(s);
    AtSplit(s, 0, name, " " + s2);
    AtSplit(s, |name|, " ", s2);
    AtSplit(s, |name| + 1, t, " " + s4);
    AtSplit(s, |name| + 1 + |t|, " ", s4);
    AtSplit(s, |name| + |t| + 2, "HTTP/1.1\r\n", end + tail);
    AtSplit(s, |name| + |t| + 12, end, tail);
  }

  lemma HeadNests(name: seq<char>, t: seq<char>, headers: seq<char>, tail: seq<char>)
    ensures name + " " + t + " HTTP/1.1\r\n" + headers + "\r\n" + tail
         == name + (" " + (t + (" " + ("HTTP/1.1\r\n" + (headers + "\r\n" + tail)))))
  {
    assert " HTTP/1.1\r\n" == " " + "HTTP/1.1\r\n";
  }

  // ---------- a well-formed request survives ----------

  lemma {:induction false} HeadersPrinted(st: Parser, s: seq<char>, p: nat, hs: seq<Header>)
    requires At(s, p, PrintHeaders(hs) + "\r\n")
    requires forall i | 0 <= i < |hs| :: HeaderOk(hs[i])
    ensures HeaderStage(st, s, p) ==
      st.(progress := Good, headers := Enter(st.headers, hs), bytes := st.bytes + |PrintHeaders(hs)| + 2)
    decreases hs
  {
    hide NextLine, PrintHeader, HeaderOk;
    if hs == [] {
      assert PrintHeaders(hs) + "\r\n" == "\r\n";
      BlankLine(s, p);
    } else {
      var h, rest := hs[0], PrintHeaders(hs[1..]) + "\r\n";
      assert PrintHeaders(hs) + "\r\n" == PrintHeader(h) + rest;
      AtSplit(s, p, PrintHeader(h), rest);
      NextLinePrinted(s, p, h);
      var n := |PrintHeader(h)|;
      HeadersPrinted(st.(headers := st.headers[h.key := h.value], bytes := st.bytes + n), s, p + n, hs[1..]);
    }
  }

  lemma VersionPrinted(st: Parser, s: seq<char>, p: nat)
    requires At(s, p, "HTTP/1.1\r\n")
    ensures VersionStage(st, s, p) ==
      HeaderStage(st.(major := 1, minor := 1, progress := ParsingHeaders, bytes := st.bytes + 10), s, p + 10)
  {
    hide HeaderStage;
    var line := "HTTP/1.1\r\n";
    assert line == "HTTP/1.1" + "\r\n";
    AtSplit(s, p, "HTTP/1.1", "\r\n");
    AtSlice(s, p, "HTTP/1.1");
    AtIndex(s, p, line, 8);
    AtIndex(s, p, line, 9);
    forall i | p <= i < p + 9 ensures s[i] != '\n' {
      AtIndex(s, p, line, i - p);
    }
    FindIs(s, p, |s|, '\n', p + 9);
    assert LineEnd(s, p + 9) == p + 8;
  }

  lemma UriPrinted(st: Parser, s: seq<char>, p: nat, r: Request)
    requires At(s, p, Target(r.uri, r.query)) && At(s, p + |Target(r.uri, r.query)|, " ")
    requires TextOk(r.uri) && TextOk(r.query) && st.query == []
    ensures UriStage(st, s, p) ==
      VersionStage(st.(uri := r.uri, query := r.query, progress := ParsingVersion,
                       bytes := st.bytes + |Target(r.uri, r.query)| + 1),
                   s, p + |Target(r.uri, r.query)| + 1)
  {
    hide VersionStage, UpToStop, AfterLastMark, Decode;
    var t := Target(r.uri, r.query);
    assert forall i | 0 <= i < |t| :: t[i] != ' ' && t[i] != '%';
    AtIndex(s, p + |t|, " ", 0);
    forall i | p <= i < p + |t| ensures s[i] != ' ' && s[i] != '%' {
      AtIndex(s, p, t, i - p);
    }
    FindIs(s, p, |s|, ' ', p + |t|);
    DecodePlain(s, p, p + |t|);
    AtSlice(s, p, t);
    TargetSplits(r.uri, r.query);
  }

  lemma MethodPrinted(st: Parser, s: seq<char>, m: Method)
    requires m != INVALID_METHOD && At(s, 0, MethodName(m)) && At(s, |MethodName(m)|, " ")
    ensures MethodStage(st, s, 0) ==
      UriStage(st.(method_ := m, progress := ParsingURI, bytes := st.bytes + |MethodName(m)| + 1),
               s, |MethodName(m)| + 1)
  {
    hide UriStage;
    var name := MethodName(m);
    assert forall i | 0 <= i < |name| :: name[i] != ' ';
    AtIndex(s, |name|, " ", 0);
    forall i | 0 <= i < |name| ensures s[i] != ' ' {
      AtIndex(s, 0, name, i);
    }
    FindIs(s, 0, |s|, ' ', |name|);
    AtSlice(s, 0, name);
  }

  lemma WellFormedSurvives(r: Request, hs: seq<Header>, tail: seq<char>)
    requires Lists(hs, r.headers) && WellFormed(r)
    ensures Parse(START, PrintHead(r, hs) + tail) == Parsed(r, |PrintHead(r, hs)|)
  {
    hide HeaderStage, VersionStage, UriStage, MethodStage, PrintHead, MethodName, Lists, HeadersOk;
    var s, m, t := PrintHead(r, hs) + tail, |MethodName(r.method_)|, Target(r.uri, r.query);
    HeadLayout(r, hs, tail);
    MethodPrinted(START, s, r.method_);
    var st1 := START.(method_ := r.method_, progress := ParsingURI, bytes := m + 1);
    UriPrinted(st1, s, m + 1, r);
    var st2 := st1.(uri := r.uri, query := r.query, progress := ParsingVersion, bytes := m + |t| + 2);
    VersionPrinted(st2, s, m + |t| + 2);
    var st3 := st2.(major := 1, minor := 1, progress := ParsingHeaders, bytes := m + |t| + 12);
    HeadersListedOk(hs, r.headers);
    HeadersPrinted(st3, s, m + |t| + 12, hs);
    EnterRebuilds(hs, r.headers);
  }

  // ---------- only well-formed requests survive ----------

  lemma {:induction false} HeadersKeep(st: Parser, s: seq<char>, p: nat)
    requires HeadersOk(st.headers)
    ensures var r := HeaderStage(st, s, p);
      r.method_ == st.method_ && r.uri == st.uri && r.query == st.query && HeadersOk(r.headers)
    decreases |s| + 1 - p
  {
    hide HeaderOk, NextLine;
    if p <= |s| && NextLine(s, p).Field? {
      var h, next := NextLine(s, p).header, NextLine(s, p).next;
      NextLineOk(s, p);
      var st1 := st.(headers := st.headers[h.key := h.value], bytes := st.bytes + next - p);
      forall k | k in st1.headers ensures HeaderOk(Header(k, st1.headers[k])) {
        assert k == h.key || k in st.headers;
      }
      HeadersKeep(st1, s, next);
    }
  }

  lemma VersionKeeps(st: Parser, s: seq<char>, p: nat)
    requires HeadersOk(st.headers)
    ensures var r := VersionStage(st, s, p);
      r.method_ == st.method_ && r.uri == st.uri && r.query == st.query && HeadersOk(r.headers)
  {
    hide HeaderStage, HeadersOk;
    if p <= |s| {
      var f := Find(s, p, |s|, '\n');
      if f > p {
        var version := s[p..LineEnd(s, f)];
        HeadersKeep(st.(major := 1, minor := if version == "HTTP/1.1" then 1 else 0,
                        progress := ParsingHeaders, bytes := st.bytes + f + 1 - p), s, f + 1);
      }
    }
  }

  /** What a successful parse says about the target it saw. */
  lemma UriTells(st: Parser, s: seq<char>, p: nat)
    requires HeadersOk(st.headers) && st.query == [] && !st.progress.Good?
    requires UriStage(st, s, p).progress.Good?
    ensures p <= |s| && Decode(s, p, Find(s, p, |s|, ' ')).Some?
    ensures var t, r := Decode(s, p, Find(s, p, |s|, ' ')).value, UriStage(st, s, p);
      r.uri == UpToStop(t) && r.query == QueryOf(t) && HeadersOk(r.headers)
  {
    hide VersionStage, HeadersOk;
    var f := Find(s, p, |s|, ' ');
    var t := Decode(s, p, f).value;
    VersionKeeps(st.(uri := UpToStop(t), query := QueryOf(t), progress := ParsingVersion,
                     bytes := st.bytes + f + 1 - p), s, f + 1);
  }

  lemma PlainInside(s: seq<char>, p: nat, w: seq<char>)
    requires At(s, p, w) && At(s, p + |w|, " H")
    requires Decode(s, p, Find(s, p, |s|, ' ')).Some?
    requires var t := Decode(s, p, Find(s, p, |s|, ' ')).value; Target(UpToStop(t), QueryOf(t)) == w
    ensures forall i | 0 <= i < |w| :: w[i] != ' ' && w[i] != '%'
    ensures NoStop(UpToStop(Decode(s, p, Find(s, p, |s|, ' ')).value))
    ensures NoStop(QueryOf(Decode(s, p, Find(s, p, |s|, ' ')).value))
  {
    hide UpToStop, AfterLastMark, QueryOf, Target, NoStop;
    var f := Find(s, p, |s|, ' ');
    var t := Decode(s, p, f).value;
    AtIndex(s, p + |w|, " H", 0);
    AtIndex(s, p + |w|, " H", 1);
    assert f <= p + |w|;
    DecodeLength(s, p, f);
    TargetLength(t);
    assert t == w && f == p + |w|;
    assert ParseHex(' ', 'H') != '%';
    forall i | 0 <= i < |w| ensures w[i] != ' ' && w[i] != '%' {
      AtIndex(s, p, w, i);
      assert t[p + i - p] == w[i];
    }
  }

  /** A target that came out as it went in is plain. */
  lemma TargetWasPlain(s: seq<char>, p: nat, uri: seq<char>, query: seq<char>)
    requires At(s, p, Target(uri, query)) && At(s, p + |Target(uri, query)|, " H")
    requires Decode(s, p, Find(s, p, |s|, ' ')).Some?
    requires var t := Decode(s, p, Find(s, p, |s|, ' ')).value; UpToStop(t) == uri && QueryOf(t) == query
    ensures TextOk(uri) && TextOk(query)
  {
    hide UpToStop, AfterLastMark, QueryOf;
    var w := Target(uri, query);
    PlainInside(s, p, w);
    forall i | 0 <= i < |uri| ensures PlainChar(uri[i]) {
      assert uri[i] == w[i];
    }
    forall i | 0 <= i < |query| ensures PlainChar(query[i]) {
      assert query[i] == w[|uri| + 1 + i];
    }
  }

  lemma NoMethodFails(s: seq<char>, m: Method)
    requires At(s, 0, MethodName(m)) && At(s, |MethodName(m)|, " ")
    ensures m == INVALID_METHOD ==> MethodStage(START, s, 0).progress.InvalidMethod?
  {
    if m == INVALID_METHOD {
      AtIndex(s, 0, " ", 0);
      FindIs(s, 0, |s|, ' ', 0);
      assert s[0..0] == [];
    }
  }

  lemma SurvivorIsWellFormed(r: Request, hs: seq<Header>, tail: seq<char>)
    requires Parse(START, PrintHead(r, hs) + tail) == Parsed(r, |PrintHead(r, hs)|)
    ensures WellFormed(r)
  {
    hide UriStage, MethodStage, PrintHead, MethodName, HeadersOk, TextOk, At, PrintHeaders;
    var s, m, t := PrintHead(r, hs) + tail, |MethodName(r.method_)|, Target(r.uri, r.query);
    HeadLayout(r, hs, tail);
    NoMethodFails(s, r.method_);
    MethodPrinted(START, s, r.method_);
    var st1 := START.(method_ := r.method_, progress := ParsingURI, bytes := m + 1);
    assert HeadersOk(st1.headers) by { EmptyHeadersOk(); }
    UriTells(st1, s, m + 1);
    SpaceAndVersion(s, m + 1 + |t|);
    TargetWasPlain(s, m + 1, r.uri, r.query);
  }

  lemma EmptyHeadersOk()
    ensures HeadersOk(map[])
  {
  }

  lemma SpaceAndVersion(s: seq<char>, p: nat)
    requires At(s, p, " ") && At(s, p + 1, "HTTP/1.1\r\n")
    ensures At(s, p, " H")
  {
    AtIndex(s, p, " ", 0);
    AtIndex(s, p + 1, "HTTP/1.1\r\n", 0);
  }

  lemma HeadRoundTripIff(r: Request, hs: seq<Header>, tail: seq<char>)
    requires Lists(hs, r.headers)
    ensures Parse(START, PrintHead(r, hs) + tail) == Parsed(r, |PrintHead(r, hs)|) <==> WellFormed(r)
  {
    hide Parse, Lists, WellFormed, PrintHead;
    if WellFormed(r) {
      WellFormedSurvives(r, hs, tail);
    }
    if Parse(START, PrintHead(r, hs) + tail) == Parsed(r, |PrintHead(r, hs)|) {
      SurvivorIsWellFormed(r, hs, tail);
    }
  }

  /** Exactly the well-formed requests survive printing and parsing, whatever the order in which the
      headers are iterated and whatever follows in the input; the parser stops in front of the body. */
  lemma RequestRoundTripIff(r: Request, hs: seq<Header>, tail: seq<char>)
    requires Lists(hs, r.headers)
    ensures Parse(START, ToString(r, hs) + tail) == Parsed(r, |PrintHead(r, hs)|) <==> WellFormed(r)
  {
    hide Parse, Lists, WellFormed, PrintHead;
    assert ToString(r, hs) + tail == PrintHead(r, hs) + (r.body + tail);
    HeadRoundTripIff(r, hs, r.body + tail);
  }

  // ---------- parse_hex undoes percent-encoding ----------

  /** The two hexadecimal digits of a byte, in either case. */
  function HexChar(n: nat, upper: bool): char
    requires n < 16
  {
    if n < 10 then (48 + n) as char else if upper then (55 + n) as char else (87 + n) as char
  }

  lemma HexDigitInverts(n: nat, upper: bool)
    requires n < 16
    ensures HexDigit(HexChar(n, upper)) == n
  {
    if n >= 10 {
      var b := (if upper then 55 else 87) + n;
      assert b / 32 == if upper then 2 else 3;
    }
  }

  /** Other characters are taken for digits as well: bit 5 is set, and counting starts with 10 at 'a'. */
  lemma AnyIsHexDigit(c: char, k: nat)
    requires c as int < 256 && !('0' <= c <= '9') && k < 26
    ensures HexDigit(c) == 64 * (c as int / 64) + 32 + c as int % 32 - 87
    ensures HexDigit(('a' as int + k) as char) == HexDigit(('A' as int + k) as char) == 10 + k
  {
    var n := c as int;
    assert n == 64 * (n / 64) + 32 * (n / 32 % 2) + n % 32;
  }

  lemma ParseHexInverts(n1: nat, n2: nat, upper: bool)
    requires n1 < 16 && n2 < 16
    ensures ParseHex(HexChar(n1, upper), HexChar(n2, upper)) == (16 * n1 + n2) as char
  {
    hide HexDigit, HexChar;
    HexDigitInverts(n1, upper);
    HexDigitInverts(n2, upper);
  }

  /** How a character of a target is written: as it is, or as '%' and two hexadecimal digits. */
  datatype Spelling = Plain | Escaped(upper: bool)

  predicate SpellingOk(u: seq<char>, how: seq<Spelling>) {
    && |how| == |u|
    && forall i | 0 <= i < |u| :: if how[i].Plain? then u[i] != ' ' && u[i] != '%' else u[i] as int < 256
  }

  function Spell(u: seq<char>, how: seq<Spelling>): seq<char>
    requires SpellingOk(u, how)
  {
    if u == [] then []
    else
      (if how[0].Plain? then [u[0]]
       else ['%', HexChar(u[0] as int / 16, how[0].upper), HexChar(u[0] as int % 16, how[0].upper)])
      + Spell(u[1..], how[1..])
  }

  lemma OneEscape(s: seq<char>, p: nat, c: char, upper: bool)
    requires c as int < 256 && At(s, p, ['%', HexChar(c as int / 16, upper), HexChar(c as int % 16, upper)])
    ensures p + 3 <= |s| && s[p] == '%' && ParseHex(s[p + 1], s[p + 2]) == c
  {
    var e := ['%', HexChar(c as int / 16, upper), HexChar(c as int % 16, upper)];
    AtIndex(s, p, e, 0);
    AtIndex(s, p, e, 1);
    AtIndex(s, p, e, 2);
    ParseHexInverts(c as int / 16, c as int % 16, upper);
  }

  /** A string any part of which is percent-encoded decodes to itself, wherever it stands. */
  lemma {:induction false} EscapeRoundTrip(s: seq<char>, p: nat, u: seq<char>, how: seq<Spelling>)
    requires SpellingOk(u, how) && At(s, p, Spell(u, how))
    ensures Decode(s, p, p + |Spell(u, how)|) == Some(u)
    decreases u
  {
    hide HexChar, ParseHex, At;
    if u != [] {
      var first := if how[0].Plain? then [u[0]]
                   else ['%', HexChar(u[0] as int / 16, how[0].upper), HexChar(u[0] as int % 16, how[0].upper)];
      AtSplit(s, p, first, Spell(u[1..], how[1..]));
      AtIndex(s, p, first, 0);
      EscapeRoundTrip(s, p + |first|, u[1..], how[1..]);
      if how[0].Escaped? {
        OneEscape(s, p, u[0], how[0].upper);
      }
      assert u == [u[0]] + u[1..];
    } else {
      AtFits(s, p, []);
    }
  }

  lemma AtFits(s: seq<char>, p: nat, part: seq<char>)
    requires At(s, p, part)
    ensures p + |part| <= |s|
  {
  }

  lemma {:induction false} SpellHasNoSpace(u: seq<char>, how: seq<Spelling>)
    requires SpellingOk(u, how)
    ensures forall i | 0 <= i < |Spell(u, how)| :: Spell(u, how)[i] != ' '
  {
    if u != [] {
      SpellHasNoSpace(u[1..], how[1..]);
    }
  }
}
