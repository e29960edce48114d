/** Replies: Reply::toString and ReplyParser of src/http/HttpDef.cpp. */
module HttpReply {
  import opened Wrappers
  import opened HttpText

  // ---------- decimal numbers: std::to_string and std::stoi ----------

  predicate IsDigit(c: char) {
    '0' <= c <= '9'
  }

  function ToDecimal(n: nat): (s: seq<char>)
    ensures |s| >= 1
    ensures forall i | 0 <= i < |s| :: IsDigit(s[i])
  {
    if n < 10 then [(48 + n) as char] else ToDecimal(n / 10) + [(48 + n % 10) as char]
  }

  function DecimalValue(s: seq<char>): nat
    requires forall i | 0 <= i < |s| :: IsDigit(s[i])
  {
    if s == [] then 0
    else
      var d := s[|s| - 1];
      assert IsDigit(d);
      10 * DecimalValue(s[..|s| - 1]) + (d as int - 48)
  }

  /** The end of the run of digits that starts at i. */
  function DigitsEnd(s: seq<char>, i: nat): (e: nat)
    requires i <= |s|
    ensures i <= e <= |s|
    ensures forall k | i <= k < e :: IsDigit(s[k])
    ensures e < |s| ==> !IsDigit(s[e])
    decreases |s| - i
  {
    if i == |s| || !IsDigit(s[i]) then i else DigitsEnd(s, i + 1)
  }

  const INT_MAX := 0x7FFF_FFFF

  /** std::stoi: leading space, a sign, digits; None where it throws. */
  function Stoi(s: seq<char>): Option<int> {
    var b := SkipSpaces(s, 0, |s|);
    var d := if b < |s| && (s[b] == '+' || s[b] == '-') then b + 1 else b;
    var e := DigitsEnd(s, d);
    if e == d then None
    else
      var sign := if s[b] == '-' then -1 else 1;
      var v := sign * DecimalValue(s[d..e]);
      if -INT_MAX - 1 <= v <= INT_MAX then Some(v) else None
  }

  lemma {:induction false} DecimalInverts(n: nat)
    ensures DecimalValue(ToDecimal(n)) == n
  {
    if n >= 10 {
      DecimalInverts(n / 10);
      assert ToDecimal(n)[..|ToDecimal(n)| - 1] == ToDecimal(n / 10);
    }
  }

  lemma {:induction false} DigitsEndAll(s: seq<char>, i: nat)
    requires i <= |s| && forall k | i <= k < |s| :: IsDigit(s[k])
    ensures DigitsEnd(s, i) == |s|
    decreases |s| - i
  {
    if i < |s| {
      DigitsEndAll(s, i + 1);
    }
  }

  /** What to_string prints, stoi reads, up to the range of int; beyond it stoi throws. */
  lemma StoiInverts(n: nat)
    ensures Stoi(ToDecimal(n)) == if n <= 2147483647 then Some(n) else None
  {
    var s := ToDecimal(n);
    assert IsDigit(s[0]) && !IsSpace(s[0]);
    DigitsEndAll(s, 0);
    DecimalInverts(n);
    assert s[0..|s|] == s;
  }

  lemma StoiOfNothing()
    ensures Stoi("") == None
  {
  }

  // ---------- replies ----------

  /** status_number; an unknown status prints as nothing. */
  function StatusNumber(status: nat): seq<char> {
    if Known(status) then ToDecimal(status) else []
  }

  predicate Known(status: nat) {
    status in {200, 201, 202, 204, 300, 301, 302, 304, 400, 401, 403, 404, 500, 501, 502, 503}
  }

  /** status_string */
  function StatusString(status: nat): seq<char> {
    match status
    case 200 => "Ok"
    case 201 => "Created"
    case 202 => "Accepted"
    case 204 => "No Content"
    case 300 => "Multiple Choices"
    case 301 => "Moved Permanently"
    case 302 => "Moved Temporarily"
    case 304 => "Not Modified"
    case 400 => "Bad RequestParser"
    case 401 => "Unauthorized"
    case 403 => "Forbidden"
    case 404 => "Not Found"
    case 500 => "Internal Server Error"
    case 501 => "Not Implemented"
    case 502 => "Bad Gateway"
    case 503 => "Service Unavailable"
    case _ => ""
  }

  const LENGTH := "Content-Length"

  datatype Reply = Reply(status: nat, content: seq<char>, headers: map<seq<char>, seq<char>>)

  /** toString enters the length of a non-empty content into the headers. */
  function WithLength(r: Reply): map<seq<char>, seq<char>> {
    if r.content == [] then r.headers else r.headers[LENGTH := ToDecimal(|r.content|)]
  }

  /** toString; hs is the order in which the headers, the length included, are iterated. */
  function ToString(r: Reply, hs: seq<Header>): seq<char> {
    "HTTP/1.1 " + StatusNumber(r.status) + " " + StatusString(r.status) + "\r\n" + PrintHeaders(hs) + "\r\n" + r.content
  }

  /** progress_. Undefined stands for inputs on which the original reads outside [begin, end) or throws. */
  datatype Progress =
    | ParseStarting | ParsingVersion | ParsingStatus | ParsingStatusString | ParsingHeaders | ParsingBody | Good
    | InvalidVersion | InvalidStatus | InvalidStatusString | InvalidHeader
    | Undefined

  datatype Parser = Parser(
    progress: Progress, bytes: nat, status: nat, content: seq<char>, headers: map<seq<char>, seq<char>>)

  /** A new parser, and what clear() makes of any. */
  const START := Parser(ParseStarting, 0, 0, [], map[])

  function VersionStage(st: Parser, s: seq<char>): Parser {
    var f := Find(s, 0, |s|, ' ');
    if s[0..f] != "HTTP/1.1" then st.(progress := InvalidVersion)
    else StatusStage(st.(progress := ParsingStatus, bytes := st.bytes + f + 1), s, f + 1)
  }

  /** An unknown status is not an error: the parser stays where it is. */
  function StatusStage(st: Parser, s: seq<char>, p: nat): Parser {
    if p > |s| then st.(progress := Undefined)
    else
      var f := Find(s, p, |s|, ' ');
      match Stoi(s[p..f])
      case None => st.(progress := Undefined)
      case Some(n) =>
        if n < 0 || !Known(n) then st
        else
          StatusStringStage(
            st.(progress := ParsingStatusString, status := n, bytes := st.bytes + f + 1 - p), s, f + 1)
  }

  function StatusStringStage(st: Parser, s: seq<char>, p: nat): Parser {
    if p > |s| then st.(progress := Undefined)
    else
      var f := Find(s, p, |s|, '\n');
      if f == 0 then st.(progress := Undefined)
      else HeaderStage(st.(progress := ParsingHeaders, bytes := st.bytes + f + 1 - p), s, f + 1)
  }

  /** At the end of the input the original falls through into the body stage. */
  function HeaderStage(st: Parser, s: seq<char>, p: nat): Parser
    decreases |s| + 1 - p
  {
    if p > |s| then st.(progress := Undefined)
    else
      match NextLine(s, p)
      case AtEnd => BodyStage(st, s, p)
      case Blank(next) => BodyStage(st.(progress := ParsingBody, bytes := st.bytes + next - p), s, next)
      case Broken => st.(progress := Undefined)
      case Field(h, next) =>
        HeaderStage(st.(headers := st.headers[h.key := h.value], bytes := st.bytes + next - p), s, next)
  }

  function BodyStage(st: Parser, s: seq<char>, p: nat): Parser {
    var length := if LENGTH in st.headers then Stoi(st.headers[LENGTH]) else Stoi("");
    match length
    case None => st.(progress := Undefined)
    case Some(n) =>
      if n == 0 then st.(progress := Good)
      else if n < 0 then st.(progress := Undefined)
      else if |s| - p < n then st
      else st.(progress := Good, bytes := st.bytes + n, content := st.content + s[p..p + n])
  }

  /** ReplyParser::parse on the whole input s. */
  function Parse(st: Parser, s: seq<char>): Parser {
    match st.progress
    case ParseStarting => VersionStage(st.(progress := ParsingVersion), s)
    case ParsingVersion => VersionStage(st, s)
    case ParsingStatus => StatusStage(st, s, 0)
    case ParsingStatusString => StatusStringStage(st, s, 0)
    case ParsingHeaders => HeaderStage(st, s, 0)
    case ParsingBody => BodyStage(st, s, 0)
    case _ => st
  }

  predicate IsError(st: Parser) {
    st.progress.InvalidVersion? || st.progress.InvalidStatus? || st.progress.InvalidStatusString?
    || st.progress.InvalidHeader?
  }

  // ---------- a framed reply survives ----------

  /** The length of the content can be told from the head. */
  predicate Framed(r: Reply) {
    if r.content != [] then |r.content| <= INT_MAX
    else LENGTH in r.headers && Stoi(r.headers[LENGTH]) == Some(0)
  }

  predicate WellFormed(r: Reply) {
    Known(r.status) && HeadersOk(WithLength(r)) && Framed(r)
  }

  /** The parser that has read exactly the reply r, which is n bytes long. */
  function Parsed(r: Reply, n: nat): Parser {
    Parser(Good, n, r.status, r.content, WithLength(r))
  }

  /** Where the parts of a printed reply stand. */
  lemma ReplyLayout(r: Reply, hs: seq<Header>, tail: seq<char>)
    ensures var s, n, w := ToString(r, hs) + tail, |StatusNumber(r.status)|, |StatusString(r.status)|;
      && At(s, 0, "HTTP/1.1") && At(s, 8, " ")
      && At(s, 9, StatusNumber(r.status)) && At(s, 9 + n, " ")
      && At(s, 10 + n, StatusString(r.status)) && At(s, 10 + n + w, "\r\n")
      && At(s, 12 + n + w, PrintHeaders(hs) + "\r\n")
      && At(s, 14 + n + w + |PrintHeaders(hs)|, r.content)
      && |ToString(r, hs)| == 14 + n + w + |PrintHeaders(hs)| + |r.content|
      && |s| == |ToString(r, hs)| + |tail|
  {
    hide At, StatusNumber, StatusString, PrintHeaders;
    var num, str, headers := StatusNumber(r.status), StatusString(r.status), PrintHeaders(hs);
    ReplyNests(num, str, headers, r.content, tail);
    NestedParts(ToString(r, hs) + tail, num, str, headers + "\r\n", r.content, tail);
  }

  lemma ReplyNests(num: seq<char>, str: seq<char>, headers: seq<char>, content: seq<char>, tail: seq<char>)
    ensures "HTTP/1.1 " + num + " " + str + "\r\n" + headers + "\r\n" + content + tail
         == "HTTP/1.1" + (" " + (num + (" " + (str + ("\r\n" + ((headers + "\r\n") + (content + tail)))))))
  {
    assert "HTTP/1.1 " == "HTTP/1.1" + " ";
  }

  lemma NestedParts(s: seq<char>, num: seq<char>, str: seq<char>, end: seq<char>, content: seq<char>, tail: seq<char>)
    requires s == "HTTP/1.1" + (" " + (num + (" " + (str + ("\r\n" + (end + (content + tail)))))))
    ensures At(s, 0, "HTTP/1.1") && At(s, 8, " ") && At(s, 9, num) && At(s, 9 + |num|, " ")
    ensures At(s, 10 + |num|, str) && At(s, 10 + |num| + |str|, "\r\n")
    ensures At(s, 12 + |num| + |str|, end) && At(s, 12 + |num| + |str| + |end|, content)
  {
    hide At;
    var s6 := end + (content + tail);
    var s4 := str + ("\r\n" + s6);
    var s2 := num + (" " + s4);
    AtSelf(s);
    AtSplit(s, 0, "HTTP/1.1", " " + s2);
    AtSplit(s, 8, " ", s2);
    AtSplit(s, 9, num, " " + s4);
    AtSplit(s, 9 + |num|, " ", s4);
    AtSplit(s, 10 + |num|, str, "\r\n" + s6);
    AtSplit(s, 10 + |num| + |str|, "\r\n", s6);
    AtSplit(s, 12 + |num| + |str|, end, content + tail);
    AtSplit(s, 12 + |num| + |str| + |end|, content, tail);
  }

  /** Complete fields are entered one after the other. */
  lemma {:induction false} LinesRead(st: Parser, s: seq<char>, p: nat, hs: seq<Header>)
    requires At(s, p, PrintHeaders(hs)) && forall i | 0 <= i < |hs| :: HeaderOk(hs[i])
    ensures HeaderStage(st, s, p) ==
      HeaderStage(st.(headers := Enter(st.headers, hs), bytes := st.bytes + |PrintHeaders(hs)|),
                  s, p + |PrintHeaders(hs)|)
    decreases hs
  {
    hide NextLine, PrintHeader, HeaderOk, BodyStage;
    if hs != [] {
      var h, n := hs[0], |PrintHeader(hs[0])|;
      AtSplit(s, p, PrintHeader(h), PrintHeaders(hs[1..]));
      NextLinePrinted(s, p, h);
      LinesRead(st.(headers := st.headers[h.key := h.value], bytes := st.bytes + n), s, p + n, hs[1..]);
    }
  }

  lemma BlankEnds(st: Parser, s: seq<char>, p: nat)
    requires p <= |s| && NextLine(s, p).Blank?
    ensures var next := NextLine(s, p).next;
      next >= p && HeaderStage(st, s, p) ==
        BodyStage(st.(progress := ParsingBody, bytes := st.bytes + next - p), s, next)
  {
    hide NextLine, BodyStage;
  }

  lemma SectionEnds(st: Parser, s: seq<char>, p: nat)
    requires At(s, p, "\r\n")
    ensures HeaderStage(st, s, p) == BodyStage(st.(progress := ParsingBody, bytes := st.bytes + 2), s, p + 2)
  {
    hide HeaderStage, BodyStage, NextLine;
    BlankLine(s, p);
    BlankEnds(st, s, p);
  }

  lemma HeadersPrinted(st: Parser, s: seq<char>, p: nat, hs: seq<Header>)
    requires At(s, p, PrintHeaders(hs) + "\r\n")
    requires forall i | 0 <= i < |hs| :: HeaderOk(hs[i])
    ensures HeaderStage(st, s, p) ==
      BodyStage(st.(progress := ParsingBody, headers := Enter(st.headers, hs),
                    bytes := st.bytes + |PrintHeaders(hs)| + 2),
                s, p + |PrintHeaders(hs)| + 2)
  {
    hide At, HeaderStage, BodyStage, PrintHeaders, HeaderOk, Enter;
    var n := |PrintHeaders(hs)|;
    AtSplit(s, p, PrintHeaders(hs), "\r\n");
    LinesRead(st, s, p, hs);
    SectionEnds(st.(headers := Enter(st.headers, hs), bytes := st.bytes + n), s, p + n);
  }

  lemma BodyShift(st: Parser, a: seq<char>, b: seq<char>, q: nat)
    ensures BodyStage(st, a + b, |a| + q) == BodyStage(st, b, q)
  {
    hide Stoi;
    var length := if LENGTH in st.headers then Stoi(st.headers[LENGTH]) else Stoi("");
    if length.Some? && 0 < length.value <= |b| - q {
      assert (a + b)[|a| + q..|a| + q + length.value] == b[q..q + length.value];
    }
  }

  /** The stages from the header fields on do not look back. */
  lemma {:induction false} HeadersShift(st: Parser, a: seq<char>, b: seq<char>, q: nat)
    ensures HeaderStage(st, a + b, |a| + q) == HeaderStage(st, b, q)
    decreases |b| + 1 - q
  {
    hide NextLine, BodyStage;
    if q <= |b| {
      NextLineShift(a, b, q);
      match NextLine(b, q)
      case AtEnd => BodyShift(st, a, b, q);
      case Blank(next) => BodyShift(st.(progress := ParsingBody, bytes := st.bytes + next - q), a, b, next);
      case Broken =>
      case Field(h, next) =>
        HeadersShift(st.(headers := st.headers[h.key := h.value], bytes := st.bytes + next - q), a, b, next);
    }
  }

  lemma NoNewlineBelow400(status: nat)
    ensures status < 400 ==> forall i | 0 <= i < |StatusString(status)| :: StatusString(status)[i] != '\n'
  {
  }

  lemma NoNewlineFrom400(status: nat)
    ensures status >= 400 ==> forall i | 0 <= i < |StatusString(status)| :: StatusString(status)[i] != '\n'
  {
  }

  lemma StatusStringPrinted(st: Parser, s: seq<char>, p: nat, status: nat)
    requires At(s, p, StatusString(status)) && At(s, p + |StatusString(status)|, "\r\n")
    ensures StatusStringStage(st, s, p) ==
      HeaderStage(st.(progress := ParsingHeaders, bytes := st.bytes + |StatusString(status)| + 2),
                  s, p + |StatusString(status)| + 2)
  {
    hide HeaderStage, StatusString;
    var str := StatusString(status);
    NoNewlineBelow400(status);
    NoNewlineFrom400(status);
    AtIndex(s, p + |str|, "\r\n", 0);
    AtIndex(s, p + |str|, "\r\n", 1);
    forall i | p <= i < p + |str| + 1 ensures s[i] != '\n' {
      if i < p + |str| {
        AtIndex(s, p, str, i - p);
      }
    }
    FindIs(s, p, |s|, '\n', p + |str| + 1);
  }

  lemma StatusRead(st: Parser, s: seq<char>, p: nat, n: nat)
    requires At(s, p, ToDecimal(n)) && At(s, p + |ToDecimal(n)|, " ")
    ensures StatusStage(st, s, p) ==
      if n > INT_MAX then st.(progress := Undefined)
      else if !Known(n) then st
      else
        StatusStringStage(
          st.(progress := ParsingStatusString, status := n, bytes := st.bytes + |ToDecimal(n)| + 1),
          s, p + |ToDecimal(n)| + 1)
  {
    hide StatusStringStage, Stoi, ToDecimal, Known;
    var num := ToDecimal(n);
    AtIndex(s, p + |num|, " ", 0);
    forall i | p <= i < p + |num| ensures s[i] != ' ' {
      AtIndex(s, p, num, i - p);
    }
    FindIs(s, p, |s|, ' ', p + |num|);
    AtSlice(s, p, num);
    StoiInverts(n);
  }

  lemma StatusPrinted(st: Parser, s: seq<char>, p: nat, status: nat)
    requires At(s, p, StatusNumber(status)) && At(s, p + |StatusNumber(status)|, " ")
    ensures StatusStage(st, s, p) ==
      if Known(status) then
        StatusStringStage(
          st.(progress := ParsingStatusString, status := status, bytes := st.bytes + |StatusNumber(status)| + 1),
          s, p + |StatusNumber(status)| + 1)
      else st.(progress := Undefined)
  {
    hide StatusStringStage, Stoi, ToDecimal, Known;
    if Known(status) {
      KnownFits(status);
      StatusRead(st, s, p, status);
    } else {
      AtIndex(s, p, " ", 0);
      FindIs(s, p, |s|, ' ', p);
      assert s[p..p] == "";
      StoiOfNothing();
    }
  }

  lemma KnownFits(status: nat)
    ensures Known(status) ==> status <= INT_MAX
  {
  }

  lemma VersionPrinted(st: Parser, s: seq<char>)
    requires At(s, 0, "HTTP/1.1") && At(s, 8, " ")
    ensures VersionStage(st, s) == StatusStage(st.(progress := ParsingStatus, bytes := st.bytes + 9), s, 9)
  {
    hide StatusStage;
    AtIndex(s, 8, " ", 0);
    forall i | 0 <= i < 8 ensures s[i] != ' ' {
      AtIndex(s, 0, "HTTP/1.1", i);
    }
    FindIs(s, 0, |s|, ' ', 8);
    AtSlice(s, 0, "HTTP/1.1");
  }

  /** The parser behind the status line of a printed reply with a known status. */
  function BehindStatus(status: nat): Parser {
    Parser(ParsingHeaders, 12 + |StatusNumber(status)| + |StatusString(status)|, status, [], map[])
  }

  /** Whatever the headers are, the status line of a printed reply parses when its status is known. */
  lemma StatusLinePrinted(r: Reply, hs: seq<Header>, tail: seq<char>)
    ensures var s := ToString(r, hs) + tail;
      if Known(r.status) then Parse(START, s) == HeaderStage(BehindStatus(r.status), s, BehindStatus(r.status).bytes)
      else Parse(START, s).progress.Undefined?
  {
    hide HeaderStage, StatusStage, StatusStringStage, VersionStage, StatusNumber, StatusString, At, ToString,
      PrintHeaders, Known;
    var s, n, w := ToString(r, hs) + tail, |StatusNumber(r.status)|, |StatusString(r.status)|;
    ReplyLayout(r, hs, tail);
    VersionPrinted(START.(progress := ParsingVersion), s);
    var st1 := START.(progress := ParsingStatus, bytes := 9);
    StatusPrinted(st1, s, 9, r.status);
    if Known(r.status) {
      var st2 := st1.(progress := ParsingStatusString, status := r.status, bytes := 10 + n);
      StatusStringPrinted(st2, s, 10 + n, r.status);
    }
  }

  lemma BodyPrinted(st: Parser, s: seq<char>, p: nat, content: seq<char>)
    requires At(s, p, content) && content != [] && st.content == []
    requires LENGTH in st.headers && st.headers[LENGTH] == ToDecimal(|content|)
    ensures BodyStage(st, s, p) ==
      if |content| <= INT_MAX then st.(progress := Good, bytes := st.bytes + |content|, content := content)
      else st.(progress := Undefined)
  {
    hide Stoi, ToDecimal;
    StoiInverts(|content|);
    AtSlice(s, p, content);
    assert [] + content == content;
  }

  /** With an empty content, the result is what the Content-Length of the reply itself says. */
  lemma BodyOfEmpty(st: Parser, s: seq<char>, p: nat)
    requires st.progress.ParsingBody?
    ensures BodyStage(st, s, p) == st.(progress := Good) <==>
      LENGTH in st.headers && Stoi(st.headers[LENGTH]) == Some(0)
  {
    StoiOfNothing();
  }

  /** The whole of a printed reply whose headers are well-formed. */
  lemma PrintedParse(r: Reply, hs: seq<Header>, tail: seq<char>)
    requires Known(r.status) && Lists(hs, WithLength(r)) && HeadersOk(WithLength(r))
    ensures var s := ToString(r, hs) + tail;
      && |ToString(r, hs)| >= |r.content|
      && var p := |ToString(r, hs)| - |r.content|;
      && At(s, p, r.content)
      && Parse(START, s) == BodyStage(Parser(ParsingBody, p, r.status, [], WithLength(r)), s, p)
  {
    hide StatusNumber, StatusString, At, ToString, Known, BodyStage, HeaderStage, Parse, HeadersOk, Lists,
      WithLength, PrintHeaders;
    var s := ToString(r, hs) + tail;
    ReplyLayout(r, hs, tail);
    StatusLinePrinted(r, hs, tail);
    HeadersListedOk(hs, WithLength(r));
    HeadersPrinted(BehindStatus(r.status), s, BehindStatus(r.status).bytes, hs);
    EnterRebuilds(hs, WithLength(r));
  }

  lemma FramedSurvivesIff(r: Reply, hs: seq<Header>, tail: seq<char>)
    requires Known(r.status) && Lists(hs, WithLength(r)) && HeadersOk(WithLength(r))
    ensures Parse(START, ToString(r, hs) + tail) == Parsed(r, |ToString(r, hs)|) <==> Framed(r)
  {
    hide At, ToString, Known, BodyStage, Parse, HeadersOk, Lists, Stoi, ToDecimal;
    var s, p := ToString(r, hs) + tail, |ToString(r, hs)| - |r.content|;
    PrintedParse(r, hs, tail);
    var st := Parser(ParsingBody, p, r.status, [], WithLength(r));
    if r.content == [] {
      BodyOfEmpty(st, s, p);
    } else {
      BodyPrinted(st, s, p, r.content);
    }
  }

  lemma {:induction false} HeadersStayOk(st: Parser, s: seq<char>, p: nat)
    requires HeadersOk(st.headers)
    ensures HeadersOk(HeaderStage(st, s, p).headers)
    decreases |s| + 1 - p
  {
    hide HeaderOk, NextLine, Stoi;
    if p <= |s| && NextLine(s, p).Field? {
      var h, next := NextLine(s, p).header, NextLine(s, p).next;
      NextLineOk(s, p);
      var st1 := st.(headers := st.headers[h.key := h.value], bytes := st.bytes + next - p);
      forall k | k in st1.headers ensures HeaderOk(Header(k, st1.headers[k])) {
        assert k == h.key || k in st.headers;
      }
      HeadersStayOk(st1, s, next);
    }
  }

  lemma NoHeadersOk()
    ensures HeadersOk(map[])
  {
  }

  /** Exactly the well-formed replies survive printing and parsing: known status, well-formed headers, and
      either a content whose length fits an int or a Content-Length of zero. */
  lemma ReplyRoundTripIff(r: Reply, hs: seq<Header>, tail: seq<char>)
    requires Lists(hs, WithLength(r))
    ensures Parse(START, ToString(r, hs) + tail) == Parsed(r, |ToString(r, hs)|) <==> WellFormed(r)
  {
    hide Known, Parse, HeadersOk, Lists, ToString, Framed, WithLength, HeaderStage;
    var s := ToString(r, hs) + tail;
    StatusLinePrinted(r, hs, tail);
    if Known(r.status) {
      NoHeadersOk();
      HeadersStayOk(BehindStatus(r.status), s, BehindStatus(r.status).bytes);
      if HeadersOk(WithLength(r)) {
        FramedSurvivesIff(r, hs, tail);
      }
    }
  }
}
