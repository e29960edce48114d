/** A printed request that arrives in pieces (src/http/HttpDef.cpp): exactly which cuts the parser survives. */
module RequestCuts {
  import opened Wrappers
  import opened HttpText
  import opened HttpRequest
  import opened RequestRoundTrip

  /** Position k of the printed head lies directly behind the request line or behind one of the fields. */
  predicate LineCut(r: Request, hs: seq<Header>, k: nat) {
    k >= |RequestLine(r)| && LineStart(hs, k - |RequestLine(r)|)
  }

  /** No further input changes such a parser. */
  predicate Stopped(st: Parser) {
    !st.progress.ParsingMethod? && !st.progress.ParsingURI? && !st.progress.ParsingVersion?
    && !st.progress.ParsingHeaders?
  }

  // ---------- one stage at the end of the input ----------

  lemma MethodCut(s: seq<char>, m: Method)
    requires Starts(s, 0, MethodName(m)) && |s| <= |MethodName(m)|
    ensures var st := MethodStage(START, s, 0); st.progress.InvalidMethod? || st.progress.Undefined?
  {
    var name := MethodName(m);
    assert forall i | 0 <= i < |name| :: name[i] != ' ';
    forall i | 0 <= i < |s| ensures s[i] == name[i] != ' ' {
      assert s[0 + i] == name[i];
    }
    FindIs(s, 0, |s|, ' ', |s|);
    assert s[0..|s|] == s;
  }

  lemma UriCut(st: Parser, s: seq<char>, p: nat, r: Request)
    requires p <= |s| <= p + |Target(r.uri, r.query)| && Starts(s, p, Target(r.uri, r.query))
    requires TextOk(r.uri) && TextOk(r.query)
    ensures UriStage(st, s, p).progress.Undefined?
  {
    hide UpToStop, AfterLastMark;
    var t := Target(r.uri, r.query);
    assert forall i | 0 <= i < |t| :: t[i] != ' ' && t[i] != '%';
    forall i | p <= i < |s| ensures s[i] != ' ' && s[i] != '%' {
      assert s[p + (i - p)] == t[i - p];
    }
    FindIs(s, p, |s|, ' ', |s|);
    DecodePlain(s, p, |s|);
  }

  lemma VersionCut(st: Parser, s: seq<char>, p: nat)
    requires Starts(s, p, "HTTP/1.1\r\n") && p <= |s| < p + 10
    ensures VersionStage(st, s, p).progress.InvalidVersion? || VersionStage(st, s, p).progress.Undefined?
  {
    var line := "HTTP/1.1\r\n";
    forall i | p <= i < |s| ensures s[i] != '\n' {
      assert s[p + (i - p)] == line[i - p];
    }
    FindIs(s, p, |s|, '\n', |s|);
  }

  /** The header section, cut at the end of s. */
  lemma {:induction false} HeadersCut(st: Parser, s: seq<char>, p: nat, hs: seq<Header>)
    requires st.progress.ParsingHeaders? && Starts(s, p, PrintHeaders(hs) + "\r\n")
    requires forall i | 0 <= i < |hs| :: HeaderOk(hs[i])
    requires p <= |s| < p + |PrintHeaders(hs)| + 2
    ensures var r := HeaderStage(st, s, p);
      if LineStart(hs, |s| - p) then r.progress.ParsingHeaders?
      else if |s| == p + |PrintHeaders(hs)| + 1 then
        r == st.(progress := Good, headers := Enter(st.headers, hs), bytes := st.bytes + |PrintHeaders(hs)| + 2)
      else Stopped(r) && (r.progress.Good? ==> r.bytes == st.bytes + |s| - p + 1)
    decreases hs
  {
    hide NextLine, PrintHeader, HeaderOk;
    if |s| > p {
      if hs == [] {
        assert PrintHeaders(hs) + "\r\n" == "\r\n";
        BlankCut(s, p);
      } else {
        var h, rest := hs[0], PrintHeaders(hs[1..]) + "\r\n";
        assert PrintHeaders(hs) + "\r\n" == PrintHeader(h) + rest;
        StartsSplit(s, p, PrintHeader(h), rest);
        var n := |PrintHeader(h)|;
        if |s| < p + n {
          NextLineCut(s, p, h);
          ShortCut(st, s, p);
          AfterHeads(hs, |s| - p);
        } else {
          StartsWhole(s, p, PrintHeader(h));
          NextLinePrinted(s, p, h);
          HeadersCut(st.(headers := st.headers[h.key := h.value], bytes := st.bytes + n), s, p + n, hs[1..]);
        }
      }
    }
  }

  /** A first line that reaches the end of the input ends the parse there. */
  lemma ShortCut(st: Parser, s: seq<char>, p: nat)
    requires p < |s| && NextLine(s, p) != AtEnd
    requires NextLine(s, p).Blank? || NextLine(s, p).Field? ==> NextLine(s, p).next == |s| + 1
    ensures Stopped(HeaderStage(st, s, p))
    ensures HeaderStage(st, s, p).progress.Good? ==> HeaderStage(st, s, p).bytes == st.bytes + |s| - p + 1
  {
    hide NextLine;
  }

  lemma AfterHeads(hs: seq<Header>, q: nat)
    requires hs != [] && 0 < q < |PrintHeader(hs[0])|
    ensures !LineStart(hs, q) && q < |PrintHeaders(hs)|
  {
    hide PrintHeader;
  }

  // ---------- the whole head ----------

  /** What the parser makes of the first k bytes of a printed head. */
  ghost predicate CutResult(r: Request, hs: seq<Header>, k: nat, st: Parser) {
    var n := |PrintHead(r, hs)|;
    if LineCut(r, hs, k) then st.progress.ParsingHeaders?
    else if k == n - 1 then st == Parsed(r, n)
    else Stopped(st) && (st.progress.Good? ==> st.bytes == k + 1)
  }

  lemma CutInLine(r: Request, hs: seq<Header>, k: nat, st: Parser)
    requires k < |RequestLine(r)| && Stopped(st) && !st.progress.Good?
    ensures CutResult(r, hs, k, st)
  {
    hide RequestLine, PrintHeaders;
  }

  lemma CutParse(r: Request, hs: seq<Header>, k: nat)
    requires WellFormed(r) && Lists(hs, r.headers) && 0 < k < |PrintHead(r, hs)|
    ensures CutResult(r, hs, k, Parse(START, PrintHead(r, hs)[..k]))
  {
    hide HeaderStage, Parse, PrintHead, WellFormed, Lists, CutResult, RequestLine;
    LineParsed(r, hs, k);
    if k < |RequestLine(r)| {
      CutInLine(r, hs, k, Parse(START, PrintHead(r, hs)[..k]));
    } else {
      CutInHeaders(r, hs, k);
    }
  }

  /** The parser behind the request line. */
  function BehindLine(r: Request): Parser {
    Parser(ParsingHeaders, |RequestLine(r)|, r.method_, r.uri, r.query, 1, 1, map[])
  }

  lemma LineParsed(r: Request, hs: seq<Header>, k: nat)
    requires WellFormed(r) && k <= |PrintHead(r, hs)|
    ensures var s := PrintHead(r, hs)[..k];
      if k < |RequestLine(r)| then Stopped(Parse(START, s)) && !Parse(START, s).progress.Good?
      else Parse(START, s) == HeaderStage(BehindLine(r), s, |RequestLine(r)|)
  {
    hide HeaderStage, VersionStage, UriStage, MethodStage, PrintHead, MethodName, HeadersOk, TextOk;
    hide RequestLine, At, Starts, PrintHeaders, Target;
    var h, m, t := PrintHead(r, hs), |MethodName(r.method_)|, Target(r.uri, r.query);
    var s := h[..k];
    var line, v := "HTTP/1.1\r\n", m + |t| + 2;
    HeadParts(r, hs);
    StartsCut(h, 0, MethodName(r.method_), k);
    if k <= m {
      MethodCut(s, r.method_);
      return;
    }
    StartsWhole(s, 0, MethodName(r.method_));
    StartsCut(h, m, " ", k);
    StartsWhole(s, m, " ");
    MethodPrinted(START, s, r.method_);
    var st1 := START.(method_ := r.method_, progress := ParsingURI, bytes := m + 1);
    StartsCut(h, m + 1, t, k);
    if k <= m + 1 + |t| {
      UriCut(st1, s, m + 1, r);
      return;
    }
    StartsWhole(s, m + 1, t);
    StartsCut(h, m + 1 + |t|, " ", k);
    StartsWhole(s, m + 1 + |t|, " ");
    UriPrinted(st1, s, m + 1, r);
    var st2 := st1.(uri := r.uri, query := r.query, progress := ParsingVersion, bytes := v);
    StartsCut(h, v, line, k);
    if k < v + 10 {
      VersionCut(st2, s, v);
      return;
    }
    StartsWhole(s, v, line);
    VersionPrinted(st2, s, v);
  }

  /** Where the parts of a printed head stand, without anything behind it. */
  lemma HeadParts(r: Request, hs: seq<Header>)
    ensures var h, m, t := PrintHead(r, hs), |MethodName(r.method_)|, Target(r.uri, r.query);
      && At(h, 0, MethodName(r.method_)) && At(h, m, " ")
      && At(h, m + 1, t) && At(h, m + 1 + |t|, " ")
      && At(h, m + |t| + 2, "HTTP/1.1\r\n")
      && At(h, m + |t| + 12, PrintHeaders(hs) + "\r\n")
      && |h| == m + |t| + 14 + |PrintHeaders(hs)|
      && |RequestLine(r)| == m + |t| + 12
  {
    hide At, PrintHeaders, MethodName, Target, PrintHead;
    HeadLayout(r, hs, []);
    assert PrintHead(r, hs) + [] == PrintHead(r, hs);
  }

  lemma CutInHeaders(r: Request, hs: seq<Header>, k: nat)
    requires WellFormed(r) && Lists(hs, r.headers) && |RequestLine(r)| <= k < |PrintHead(r, hs)|
    ensures CutResult(r, hs, k, HeaderStage(BehindLine(r), PrintHead(r, hs)[..k], |RequestLine(r)|))
  {
    hide HeaderStage, PrintHead, MethodName, Lists, HeadersOk, TextOk, RequestLine, At, Starts, PrintHeaders, Target;
    var h, p := PrintHead(r, hs), |RequestLine(r)|;
    HeadParts(r, hs);
    StartsCut(h, p, PrintHeaders(hs) + "\r\n", k);
    HeadersListedOk(hs, r.headers);
    HeadersCut(BehindLine(r), h[..k], p, hs);
    EnterRebuilds(hs, r.headers);
  }

  // ---------- two pieces ----------

  /** Exactly the cuts behind a line are harmless, and the cut in front of the very last byte, where the
      parser is Good already and has counted a byte that it has not seen. */
  lemma ResumesExactlyAtLines(r: Request, hs: seq<Header>, k: nat)
    requires WellFormed(r) && Lists(hs, r.headers) && 0 < k < |PrintHead(r, hs)|
    ensures var head := PrintHead(r, hs);
      Parse(Parse(START, head[..k]), head[k..]) == Parse(START, head) <==> LineCut(r, hs, k) || k == |head| - 1
  {
    hide Parse, PrintHead, WellFormed, Lists, LineCut;
    var head := PrintHead(r, hs);
    WholeParse(r, hs);
    CutParse(r, hs, k);
    assert head[..k] + head[k..] == head;
    if LineCut(r, hs, k) {
      ParseResumes(START, head[..k], head[k..]);
    } else {
      StoppedStays(Parse(START, head[..k]), head[k..]);
    }
  }

  lemma WholeParse(r: Request, hs: seq<Header>)
    requires WellFormed(r) && Lists(hs, r.headers)
    ensures Parse(START, PrintHead(r, hs)) == Parsed(r, |PrintHead(r, hs)|)
  {
    hide Parse, PrintHead, WellFormed, Lists;
    HeadRoundTripIff(r, hs, []);
    assert PrintHead(r, hs) + [] == PrintHead(r, hs);
  }

  lemma StoppedStays(st: Parser, s: seq<char>)
    requires Stopped(st)
    ensures Parse(st, s) == st
  {
  }

  /** Complete lines are entered one after the other. */
  lemma {:induction false} LinesRead(st: Parser, s: seq<char>, p: nat, hs: seq<Header>)
    requires At(s, p, PrintHeaders(hs)) && forall i | 0 <= i < |hs| :: HeaderOk(hs[i])
    ensures HeaderStage(st, s, p) ==
      HeaderStage(st.(headers := Enter(st.headers, hs), bytes := st.bytes + |PrintHeaders(hs)|),
                  s, p + |PrintHeaders(hs)|)
    decreases hs
  {
    hide NextLine, PrintHeader, HeaderOk;
    if hs != [] {
      var h, n := hs[0], |PrintHeader(hs[0])|;
      AtSplit(s, p, PrintHeader(h), PrintHeaders(hs[1..]));
      NextLinePrinted(s, p, h);
      LinesRead(st.(headers := st.headers[h.key := h.value], bytes := st.bytes + n), s, p + n, hs[1..]);
    }
  }

  /** A cut one byte behind the beginning of a field: the parser takes the truncated request for a complete
      one, and claims one byte more than there is. */
  lemma FieldCutIsServed(r: Request, hs: seq<Header>, j: nat)
    requires WellFormed(r) && Lists(hs, r.headers) && j < |hs|
    ensures var k := |RequestLine(r)| + |PrintHeaders(hs[..j])| + 1;
      && k < |PrintHead(r, hs)| && !LineCut(r, hs, k)
      && Parse(START, PrintHead(r, hs)[..k]) ==
           BehindLine(r).(progress := Good, headers := Enter(map[], hs[..j]), bytes := k + 1)
  {
    hide HeaderStage, Parse, PrintHead, TextOk, HeadersOk, Lists, RequestLine, At, Starts, PrintHeaders, HeaderOk;
    hide NextLine, PrintHeader, LineStart;
    var p, q, k := |RequestLine(r)|, |PrintHeaders(hs[..j])|, |RequestLine(r)| + |PrintHeaders(hs[..j])| + 1;
    var h := PrintHead(r, hs);
    HeadParts(r, hs);
    PrintHeadersSplit(hs, j);
    FieldIsLong(hs[j]);
    LineParsed(r, hs, k);
    var rest := PrintHeader(hs[j]) + PrintHeaders(hs[j + 1..]);
    AtSplit(h, p, PrintHeaders(hs), "\r\n");
    AtSplit(h, p, PrintHeaders(hs[..j]), rest);
    AtSplit(h, p + q, PrintHeader(hs[j]), PrintHeaders(hs[j + 1..]));
    StartsCut(h, p, PrintHeaders(hs[..j]), k);
    StartsCut(h, p + q, PrintHeader(hs[j]), k);
    StartsWhole(h[..k], p, PrintHeaders(hs[..j]));
    HeadersListedOk(hs, r.headers);
    LinesRead(BehindLine(r), h[..k], p, hs[..j]);
    NextLineCut(h[..k], p + q, hs[j]);
    BlankEnds(BehindLine(r).(headers := Enter(map[], hs[..j]), bytes := p + q), h[..k], p + q);
  }

  lemma BlankEnds(st: Parser, s: seq<char>, p: nat)
    requires p <= |s| && NextLine(s, p).Blank?
    ensures HeaderStage(st, s, p) == st.(progress := Good, bytes := st.bytes + NextLine(s, p).next - p)
  {
    hide NextLine;
  }

  /** For example, of "GET / HTTP/1.1" and "Host: x" the first 17 bytes, ending in the "H", are served. */
  lemma CutRequestIsServed()
    ensures var r, hs := Request(GET, "/", "", map["Host" := "x"], ""), [Header("Host", "x")];
      && PrintHead(r, hs)[..17] == "GET / HTTP/1.1\r\nH"
      && var st := Parse(START, PrintHead(r, hs)[..17]);
         st.progress.Good? && st.bytes == 18 && st.headers == map[]
  {
    hide Parse, WellFormed, Lists;
    var r, hs := Request(GET, "/", "", map["Host" := "x"], ""), [Header("Host", "x")];
    SmallIsWellFormed();
    SmallHead();
    FieldCutIsServed(r, hs, 0);
    assert hs[..0] == [];
  }

  lemma SmallIsWellFormed()
    ensures var r, hs := Request(GET, "/", "", map["Host" := "x"], ""), [Header("Host", "x")];
      WellFormed(r) && Lists(hs, r.headers)
  {
    var hs := [Header("Host", "x")];
    assert hs[0].key[3] == 't' && hs[0].key == "Host";
  }

  lemma SmallHead()
    ensures var r, hs := Request(GET, "/", "", map["Host" := "x"], ""), [Header("Host", "x")];
      |RequestLine(r)| == 16 && |PrintHead(r, hs)| > 17 && PrintHead(r, hs)[..17] == "GET / HTTP/1.1\r\nH"
  {
    var r, hs := Request(GET, "/", "", map["Host" := "x"], ""), [Header("Host", "x")];
    assert RequestLine(r) == "GET / HTTP/1.1\r\n";
    assert PrintHeader(hs[0]) == "Host: x\r\n";
    var rest := "ost: x\r\n" + PrintHeaders(hs[1..]);
    assert PrintHeaders(hs) == "H" + rest;
  }

  // ---------- any number of pieces ----------

  /** How much of the input the first i pieces are. */
  function Fed(pieces: seq<seq<char>>, i: nat): nat
    requires i <= |pieces|
  {
    |Concat(pieces[..i])|
  }

  lemma {:induction false} FedGrows(pieces: seq<seq<char>>, i: nat)
    requires i <= |pieces| && forall x | x in pieces :: x != []
    ensures Fed(pieces, i) + |pieces| - i <= |Concat(pieces)|
    ensures Concat(pieces[..i]) == Concat(pieces)[..Fed(pieces, i)]
    ensures 0 < i ==> 0 < Fed(pieces, i)
    decreases |pieces| - i
  {
    if i == |pieces| {
      assert pieces[..i] == pieces;
    } else {
      FedGrows(pieces, i + 1);
      assert pieces[..i + 1][..i] == pieces[..i];
      assert pieces[i] in pieces;
    }
    if i > 0 {
      assert pieces[..i][..i - 1] == pieces[..i - 1] && pieces[..i][i - 1] == pieces[i - 1];
      assert pieces[i - 1] in pieces;
    }
  }

  lemma {:induction false} StoppedForGood(st: Parser, pieces: seq<seq<char>>, i: nat)
    requires i <= |pieces| && Stopped(ParseAll(st, pieces[..i]))
    ensures ParseAll(st, pieces) == ParseAll(st, pieces[..i])
    decreases |pieces| - i
  {
    hide Parse;
    if i == |pieces| {
      assert pieces[..i] == pieces;
    } else {
      assert pieces[..i + 1][..i] == pieces[..i];
      StoppedStays(ParseAll(st, pieces[..i]), pieces[i]);
      StoppedForGood(st, pieces, i + 1);
    }
  }

  /** While all cuts lie behind lines, the pieces do what one call does. */
  lemma {:induction false} PiecesSoFar(r: Request, hs: seq<Header>, pieces: seq<seq<char>>, i: nat)
    requires WellFormed(r) && Lists(hs, r.headers) && Concat(pieces) == PrintHead(r, hs)
    requires 1 <= i <= |pieces| && forall x | x in pieces :: x != []
    requires forall j | 1 <= j < i :: LineCut(r, hs, Fed(pieces, j))
    ensures Fed(pieces, i) <= |PrintHead(r, hs)|
    ensures ParseAll(START, pieces[..i]) == Parse(START, PrintHead(r, hs)[..Fed(pieces, i)])
    decreases i
  {
    hide Parse, PrintHead, WellFormed, Lists, LineCut;
    FedGrows(pieces, i);
    forall j | 1 <= j < i ensures ParseAll(START, pieces[..i][..j]).progress.ParsingHeaders? {
      assert pieces[..i][..j] == pieces[..j];
      FedGrows(pieces, j);
      PiecesSoFar(r, hs, pieces, j);
      CutParse(r, hs, Fed(pieces, j));
    }
    PiecesParseAsWhole(START, pieces[..i]);
  }

  ghost predicate HarmlessCut(r: Request, hs: seq<Header>, k: nat) {
    LineCut(r, hs, k) || k == |PrintHead(r, hs)| - 1
  }

  /** A printed head in any number of non-empty pieces is parsed as a whole iff every cut is harmless. */
  lemma PiecesResumeIff(r: Request, hs: seq<Header>, pieces: seq<seq<char>>)
    requires WellFormed(r) && Lists(hs, r.headers) && Concat(pieces) == PrintHead(r, hs)
    requires forall x | x in pieces :: x != []
    ensures ParseAll(START, pieces) == Parse(START, PrintHead(r, hs)) <==>
            forall i | 1 <= i < |pieces| :: HarmlessCut(r, hs, Fed(pieces, i))
  {
    hide Parse, PrintHead, WellFormed, Lists, LineCut, Fed, Concat, ParseAll;
    HeadIsNotEmpty(r, hs);
    FedWhole([]);
    var i := FirstBad(r, hs, pieces, 1);
    PiecesSoFar(r, hs, pieces, i);
    FedGrows(pieces, i);
    if i == |pieces| {
      assert pieces[..i] == pieces && PrintHead(r, hs)[..|PrintHead(r, hs)|] == PrintHead(r, hs);
      FedWhole(pieces);
    } else {
      WholeParse(r, hs);
      CutParse(r, hs, Fed(pieces, i));
      StoppedForGood(START, pieces, i);
      assert HarmlessCut(r, hs, Fed(pieces, i)) ==> i == |pieces| - 1;
    }
  }

  lemma HeadIsNotEmpty(r: Request, hs: seq<Header>)
    ensures |PrintHead(r, hs)| >= 2
  {
    hide RequestLine, PrintHeaders;
  }

  lemma FedWhole(pieces: seq<seq<char>>)
    ensures Fed(pieces, |pieces|) == |Concat(pieces)| && (pieces == [] ==> Concat(pieces) == [])
  {
    assert pieces[..|pieces|] == pieces;
  }

  /** The first cut from i on that does not lie behind a line, or the end. */
  lemma FirstBad(r: Request, hs: seq<Header>, pieces: seq<seq<char>>, i: nat) returns (b: nat)
    requires |pieces| >= 1 && 1 <= i <= |pieces|
    requires forall j | 1 <= j < i :: LineCut(r, hs, Fed(pieces, j))
    ensures i <= b <= |pieces| && forall j | 1 <= j < b :: LineCut(r, hs, Fed(pieces, j))
    ensures b < |pieces| ==> !LineCut(r, hs, Fed(pieces, b))
    decreases |pieces| - i
  {
    if i == |pieces| || !LineCut(r, hs, Fed(pieces, i)) {
      b := i;
    } else {
      b := FirstBad(r, hs, pieces, i + 1);
    }
  }
}
