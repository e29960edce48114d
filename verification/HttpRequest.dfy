/** Requests: Request::toString and RequestParser of src/http/HttpDef.cpp. */
module HttpRequest {
  import opened Wrappers
  import opened HttpText

  datatype Method = INVALID_METHOD | GET | POST | OPTIONS | HEAD

  /** methods_string; the lookup of an invalid method yields an empty string. */
  function MethodName(m: Method): seq<char> {
    match m
    case INVALID_METHOD => ""
    case GET => "GET"
    case POST => "POST"
    case OPTIONS => "OPTIONS"
    case HEAD => "HEAD"
  }

  /** methods; INVALID_METHOD for anything that is not in the table. */
  function MethodOf(s: seq<char>): Method {
    if s == "GET" then GET
    else if s == "POST" then POST
    else if s == "OPTIONS" then OPTIONS
    else if s == "HEAD" then HEAD
    else INVALID_METHOD
  }

  datatype Request = Request(
    method_: Method, uri: seq<char>, query: seq<char>, headers: map<seq<char>, seq<char>>, body: seq<char>)

  /** Everything but the body; hs is the order in which the headers are iterated. */
  function PrintHead(r: Request, hs: seq<Header>): seq<char> {
    RequestLine(r) + PrintHeaders(hs) + "\r\n"
  }

  function RequestLine(r: Request): seq<char> {
    MethodName(r.method_) + " " + Target(r.uri, r.query) + " HTTP/1.1\r\n"
  }

  function Target(uri: seq<char>, query: seq<char>): seq<char> {
    if query == [] then uri else uri + "?" + query
  }

  function ToString(r: Request, hs: seq<Header>): seq<char> {
    PrintHead(r, hs) + r.body
  }

  /** What HttpClient::sendRequest writes: the string with its terminating NUL, and the body once more. */
  function ClientBytes(r: Request, hs: seq<Header>): seq<char> {
    ToString(r, hs) + "\0" + r.body
  }

  /** progress_. Undefined stands for inputs on which the original reads outside [begin, end) or throws. */
  datatype Progress =
    | ParsingMethod | ParsingURI | ParsingVersion | ParsingHeaders | Good
    | InvalidMethod | InvalidURI | InvalidVersion | InvalidHeader
    | Undefined

  datatype Parser = Parser(
    progress: Progress,
    bytes: nat,
    method_: Method,
    uri: seq<char>,
    query: seq<char>,
    major: nat,
    minor: nat,
    headers: map<seq<char>, seq<char>>)

  /** A new parser, and what clear() makes of any. */
  const START := Parser(ParsingMethod, 0, INVALID_METHOD, [], [], 0, 0, map[])

  // ---------- parse_hex and ParseURI ----------

  function HexDigit(c: char): int {
    if '0' <= c <= '9' then c as int - 48
    else
      var b := c as int % 256;
      (if b / 32 % 2 == 0 then b + 32 else b) - 97 + 10   // (c | 32) - 'a' + 10
  }

  /** parse_hex: the two characters are not checked. */
  function ParseHex(c1: char, c2: char): char {
    ((HexDigit(c1) * 16 + HexDigit(c2)) % 256) as char
  }

  /** The copying loop of ParseURI over s[i..n). None: an escape reaches past the end of the input. */
  function Decode(s: seq<char>, i: nat, n: nat): Option<seq<char>>
    requires n <= |s|
    decreases |s| - i
  {
    if i >= n then Some([])
    else if s[i] != '%' then
      match Decode(s, i + 1, n)
      case None => None
      case Some(t) => Some([s[i]] + t)
    else if i + 2 >= |s| then None
    else
      match Decode(s, i + 3, n)
      case None => None
      case Some(t) => Some([ParseHex(s[i + 1], s[i + 2])] + t)
  }

  /** A C string ends at its first NUL, and every '?' was overwritten by one. */
  function UpToStop(t: seq<char>): seq<char> {
    if t == [] || t[0] == '?' || t[0] == '\0' then [] else [t[0]] + UpToStop(t[1..])
  }

  /** What follows the last '?'. */
  function AfterLastMark(t: seq<char>): Option<seq<char>> {
    if t == [] then None
    else
      var k := |t| - 1;
      if t[k] == '?' then Some([])
      else
        match AfterLastMark(t[..k])
        case None => None
        case Some(q) => Some(q + [t[k]])
  }

  // ---------- parse, stage by stage, from position p of the input ----------

  function MethodStage(st: Parser, s: seq<char>, p: nat): Parser
    requires p <= |s|
  {
    var f := Find(s, p, |s|, ' ');
    var m := MethodOf(s[p..f]);
    if m == INVALID_METHOD then st.(progress := InvalidMethod)
    else UriStage(st.(method_ := m, progress := ParsingURI, bytes := st.bytes + f + 1 - p), s, f + 1)
  }

  function UriStage(st: Parser, s: seq<char>, p: nat): Parser {
    if p > |s| then st.(progress := Undefined)
    else
      var f := Find(s, p, |s|, ' ');
      match Decode(s, p, f)
      case None => st.(progress := Undefined)
      case Some(t) =>
        var query := match AfterLastMark(t) case None => st.query case Some(q) => UpToStop(q);
        VersionStage(
          st.(uri := UpToStop(t), query := query, progress := ParsingVersion, bytes := st.bytes + f + 1 - p),
          s, f + 1)
  }

  function VersionStage(st: Parser, s: seq<char>, p: nat): Parser {
    if p > |s| then st.(progress := Undefined)
    else
      var f := Find(s, p, |s|, '\n');
      if f == p then st.(progress := if p == 0 || s[p - 1] == '\r' then Undefined else InvalidVersion)
      else
        var version := s[p..LineEnd(s, f)];
        if version != "HTTP/1.1" && version != "HTTP/1.0" then st.(progress := InvalidVersion)
        else
          HeaderStage(
            st.(major := 1, minor := if version == "HTTP/1.1" then 1 else 0,
                progress := ParsingHeaders, bytes := st.bytes + f + 1 - p),
            s, f + 1)
  }

  function HeaderStage(st: Parser, s: seq<char>, p: nat): Parser
    decreases |s| + 1 - p
  {
    if p > |s| then st.(progress := Undefined)
    else
      match NextLine(s, p)
      case AtEnd => st
      case Blank(next) => st.(progress := Good, bytes := st.bytes + next - p)
      case Broken => st.(progress := Undefined)
      case Field(h, next) =>
        HeaderStage(st.(headers := st.headers[h.key := h.value], bytes := st.bytes + next - p), s, next)
  }

  /** RequestParser::parse on the whole input s. */
  function Parse(st: Parser, s: seq<char>): Parser {
    match st.progress
    case ParsingMethod => MethodStage(st, s, 0)
    case ParsingURI => UriStage(st, s, 0)
    case ParsingVersion => VersionStage(st, s, 0)
    case ParsingHeaders => HeaderStage(st, s, 0)
    case _ => st
  }

  // ---------- resuming at a line boundary ----------

  /** A run of the header loop that ends in need of more lines goes on exactly where it stopped. */
  lemma {:induction false} HeadersResume(st: Parser, a: seq<char>, b: seq<char>, p: nat)
    requires p <= |a|
    requires HeaderStage(st, a, p).progress.ParsingHeaders?
    ensures HeaderStage(st, a + b, p) == HeaderStage(HeaderStage(st, a, p), a + b, |a|)
    ensures HeaderStage(st, a, p).bytes == st.bytes + |a| - p
    decreases |a| - p
  {
    hide NextLine;
    match NextLine(a, p)
    case Field(h, next) =>
      var st1 := st.(headers := st.headers[h.key := h.value], bytes := st.bytes + next - p);
      assert next <= |a|;
      NextLineInside(a, b, p);
      HeadersResume(st1, a, b, next);
    case _ =>
  }

  /** The header loop does not look at what lies before it. */
  lemma {:induction false} HeadersShift(st: Parser, a: seq<char>, b: seq<char>, q: nat)
    requires q <= |b| + 1
    ensures HeaderStage(st, a + b, |a| + q) == HeaderStage(st, b, q)
    decreases |b| + 1 - q
  {
    hide NextLine;
    if q <= |b| {
      NextLineShift(a, b, q);
      match NextLine(b, q)
      case Field(h, next) =>
        HeadersShift(st.(headers := st.headers[h.key := h.value], bytes := st.bytes + next - q), a, b, next);
      case _ =>
    }
  }

  lemma {:induction false} DecodeInside(a: seq<char>, b: seq<char>, i: nat, n: nat)
    requires n <= |a| && Decode(a, i, n).Some?
    ensures Decode(a + b, i, n) == Decode(a, i, n)
    decreases |a| - i
  {
    if i < n {
      DecodeInside(a, b, if a[i] == '%' then i + 3 else i + 1, n);
    }
  }

  lemma VersionResume(st: Parser, a: seq<char>, b: seq<char>, p: nat)
    requires VersionStage(st, a, p).progress.ParsingHeaders? && !st.progress.ParsingHeaders?
    ensures VersionStage(st, a + b, p) == HeaderStage(VersionStage(st, a, p), b, 0)
    ensures VersionStage(st, a, p).bytes + p == st.bytes + |a|
  {
    hide HeaderStage;
    assert p <= |a|;
    var f := Find(a, p, |a|, '\n');
    var st1 := st.(major := 1, minor := if a[p..LineEnd(a, f)] == "HTTP/1.1" then 1 else 0,
                   progress := ParsingHeaders, bytes := st.bytes + f + 1 - p);
    assert VersionStage(st, a, p) == HeaderStage(st1, a, f + 1);
    PastEnd(st1, a, f + 1);
    FindInside(a, b, p, '\n');
    assert (a + b)[p..LineEnd(a, f)] == a[p..LineEnd(a, f)];
    HeadersResume(st1, a, b, f + 1);
    HeadersShift(HeaderStage(st1, a, f + 1), a, b, 0);
  }

  lemma PastEnd(st: Parser, s: seq<char>, p: nat)
    requires HeaderStage(st, s, p).progress.ParsingHeaders?
    ensures p <= |s|
  {
  }

  lemma UriResume(st: Parser, a: seq<char>, b: seq<char>, p: nat)
    requires UriStage(st, a, p).progress.ParsingHeaders? && !st.progress.ParsingHeaders?
    ensures UriStage(st, a + b, p) == HeaderStage(UriStage(st, a, p), b, 0)
    ensures UriStage(st, a, p).bytes + p == st.bytes + |a|
  {
    hide VersionStage, UpToStop, AfterLastMark;
    var f := Find(a, p, |a|, ' ');
    var t := Decode(a, p, f).value;
    var query := match AfterLastMark(t) case None => st.query case Some(q) => UpToStop(q);
    var st1 := st.(uri := UpToStop(t), query := query, progress := ParsingVersion, bytes := st.bytes + f + 1 - p);
    assert UriStage(st, a, p) == VersionStage(st1, a, f + 1);
    VersionInside(st1, a, f + 1);
    FindInside(a, b, p, ' ');
    DecodeInside(a, b, p, f);
    VersionResume(st1, a, b, f + 1);
  }

  lemma VersionInside(st: Parser, s: seq<char>, p: nat)
    requires VersionStage(st, s, p).progress.ParsingHeaders?
    ensures p <= |s|
  {
  }

  lemma MethodResume(st: Parser, a: seq<char>, b: seq<char>)
    requires MethodStage(st, a, 0).progress.ParsingHeaders? && !st.progress.ParsingHeaders?
    ensures MethodStage(st, a + b, 0) == HeaderStage(MethodStage(st, a, 0), b, 0)
    ensures MethodStage(st, a, 0).bytes == st.bytes + |a|
  {
    hide UriStage;
    var f := Find(a, 0, |a|, ' ');
    var m := MethodOf(a[0..f]);
    var st1 := st.(method_ := m, progress := ParsingURI, bytes := st.bytes + f + 1);
    assert MethodStage(st, a, 0) == UriStage(st1, a, f + 1);
    UriInside(st1, a, f + 1);
    FindInside(a, b, 0, ' ');
    assert (a + b)[0..f] == a[0..f];
    UriResume(st1, a, b, f + 1);
  }

  lemma UriInside(st: Parser, s: seq<char>, p: nat)
    requires UriStage(st, s, p).progress.ParsingHeaders? && !st.progress.ParsingHeaders?
    ensures p <= |s|
  {
  }

  /** Resumable parsing: whenever parse returns in need of more header lines, it has consumed exactly its
      input, and feeding it the rest gives what one call on everything would have given. */
  lemma ParseResumes(st: Parser, a: seq<char>, b: seq<char>)
    requires Parse(st, a).progress.ParsingHeaders?
    ensures Parse(Parse(st, a), b) == Parse(st, a + b)
    ensures Parse(st, a).bytes == st.bytes + |a|
  {
    hide HeaderStage, VersionStage, UriStage, MethodStage;
    match st.progress
    case ParsingMethod => MethodResume(st, a, b);
    case ParsingURI => UriResume(st, a, b, 0);
    case ParsingVersion => VersionResume(st, a, b, 0);
    case ParsingHeaders =>
      HeadersResume(st, a, b, 0);
      HeadersShift(HeaderStage(st, a, 0), a, b, 0);
    case _ =>
  }

  function Concat(pieces: seq<seq<char>>): seq<char> {
    if pieces == [] then [] else Concat(pieces[..|pieces| - 1]) + pieces[|pieces| - 1]
  }

  /** The parser after the pieces, one call for each. */
  function ParseAll(st: Parser, pieces: seq<seq<char>>): Parser {
    if pieces == [] then st else Parse(ParseAll(st, pieces[..|pieces| - 1]), pieces[|pieces| - 1])
  }

  /** Any number of pieces: if every call but the last returned in need of more header lines, all the
      calls together did what one call on the whole head does. */
  lemma {:induction false} PiecesParseAsWhole(st: Parser, pieces: seq<seq<char>>)
    requires pieces != []
    requires forall k | 1 <= k < |pieces| :: ParseAll(st, pieces[..k]).progress.ParsingHeaders?
    ensures ParseAll(st, pieces) == Parse(st, Concat(pieces))
    decreases |pieces|
  {
    hide Parse;
    var k := |pieces| - 1;
    if k == 0 {
      assert Concat(pieces[..0]) == [] && Concat(pieces) == [] + pieces[0] == pieces[0];
    } else {
      forall j | 1 <= j < k ensures ParseAll(st, pieces[..k][..j]).progress.ParsingHeaders? {
        assert pieces[..k][..j] == pieces[..j];
      }
      PiecesParseAsWhole(st, pieces[..k]);
      ParseResumes(st, Concat(pieces[..k]), pieces[k]);
    }
  }
}
