/** The server's read loop (src/http/HttpServer.cpp): requests are parsed off the read buffer one after
    the other. Files and responses are reduced to whether the file can be opened. */
module HttpServers {
  import opened Wrappers
  import opened HttpText
  import opened HttpRequest
  import opened RequestRoundTrip
  import opened RequestCuts
  import RequestText
  import opened RequestParsers
  import opened Buffers

  /** How handleReadEvent ends. */
  datatype Outcome =
    | Emptied      // the read buffer is empty
    | NeedMore     // the head is not complete
    | BadRequest   // the parser reported an error
    | NoFile       // the file cannot be opened
    | Closing      // the request did not ask for keep-alive
    | Aborted      // parse throws or reads outside its input

  datatype Result = Result(outcome: Outcome, served: seq<Parser>, parser: Parser, buffer: seq<char>)

  predicate KeepAlive(headers: map<seq<char>, seq<char>>) {
    "Connection" in headers && headers["Connection"] == "keep-alive"
  }

  /** Looking the field up with operator[] enters it when it is missing. */
  function Looked(p: Parser): Parser {
    if "Connection" in p.headers then p else p.(headers := p.headers["Connection" := ""])
  }

  function Used(st: Parser, st1: Parser): nat {
    if st1.bytes >= st.bytes then st1.bytes - st.bytes else 0
  }

  function Serve(p: Parser, r: Result): Result {
    r.(served := [p] + r.served)
  }

  lemma {:induction false} HeadersGrow(st: Parser, s: seq<char>, p: nat)
    ensures HeaderStage(st, s, p).bytes >= st.bytes
    ensures HeaderStage(st, s, p).progress.Good? && !st.progress.Good? ==> HeaderStage(st, s, p).bytes > st.bytes
    decreases |s| + 1 - p
  {
    hide NextLine;
    if p <= |s| && NextLine(s, p).Field? {
      var h, next := NextLine(s, p).header, NextLine(s, p).next;
      HeadersGrow(st.(headers := st.headers[h.key := h.value], bytes := st.bytes + next - p), s, next);
    }
  }

  lemma VersionGrows(st: Parser, s: seq<char>, p: nat)
    ensures VersionStage(st, s, p).bytes >= st.bytes
    ensures VersionStage(st, s, p).progress.Good? && !st.progress.Good? ==> VersionStage(st, s, p).bytes > st.bytes
  {
    hide HeaderStage;
    if p <= |s| {
      var f := Find(s, p, |s|, '\n');
      if f > p {
        HeadersGrow(st.(major := 1, minor := if s[p..LineEnd(s, f)] == "HTTP/1.1" then 1 else 0,
                        progress := ParsingHeaders, bytes := st.bytes + f + 1 - p), s, f + 1);
      }
    }
  }

  lemma UriGrows(st: Parser, s: seq<char>, p: nat)
    ensures UriStage(st, s, p).bytes >= st.bytes
    ensures UriStage(st, s, p).progress.Good? && !st.progress.Good? ==> UriStage(st, s, p).bytes > st.bytes
  {
    hide VersionStage, Decode, AfterLastMark, UpToStop;
    if p <= |s| {
      var f := Find(s, p, |s|, ' ');
      if Decode(s, p, f).Some? {
        var t := Decode(s, p, f).value;
        var query := match AfterLastMark(t) case None => st.query case Some(q) => UpToStop(q);
        VersionGrows(
          st.(uri := UpToStop(t), query := query, progress := ParsingVersion, bytes := st.bytes + f + 1 - p),
          s, f + 1);
      }
    }
  }

  /** A parser that becomes Good has consumed something. */
  lemma GoodConsumes(st: Parser, s: seq<char>)
    requires Parse(st, s).progress.Good? && !st.progress.Good?
    ensures Parse(st, s).bytes > st.bytes
  {
    hide HeaderStage, VersionStage, UriStage;
    match st.progress
    case ParsingMethod =>
      var f := Find(s, 0, |s|, ' ');
      UriGrows(st.(method_ := MethodOf(s[0..f]), progress := ParsingURI, bytes := st.bytes + f + 1), s, f + 1);
    case ParsingURI => UriGrows(st, s, 0);
    case ParsingVersion => VersionGrows(st, s, 0);
    case ParsingHeaders => HeadersGrow(st, s, 0);
    case _ =>
  }

  predicate IsError(st: Parser) {
    st.progress.InvalidMethod? || st.progress.InvalidURI? || st.progress.InvalidVersion? || st.progress.InvalidHeader?
  }

  /** The loop of handleReadEvent. */
  function Loop(st: Parser, buf: seq<char>, opens: seq<char> -> bool): Result
    decreases |buf|, if st.progress.Good? then 1 else 0
  {
    if buf == [] then Result(Emptied, [], st, buf)
    else
      var st1 := Parse(st, buf);
      var rest := Drop(buf, Used(st, st1));
      if st1.progress.Undefined? then Result(Aborted, [], st1, rest)
      else if IsError(st1) then Result(BadRequest, [], st1, rest)
      else if !st1.progress.Good? then Result(NeedMore, [], st1, rest)
      else if !opens(st1.uri) then Result(NoFile, [], st1, rest)
      else if !KeepAlive(st1.headers) then Result(Closing, [st1], Looked(st1), rest)
      else
        if !st.progress.Good? then
          GoodConsumes(st, buf);
          Serve(st1, Loop(START, rest, opens))
        else Serve(st1, Loop(START, rest, opens))
  }

  // ---------- pipelined requests ----------

  datatype Printed = Printed(request: Request, hs: seq<Header>)

  ghost predicate Servable(p: Printed, opens: seq<char> -> bool) {
    && WellFormed(p.request) && Lists(p.hs, p.request.headers) && opens(p.request.uri)
    && "Connection" in p.request.headers && p.request.headers["Connection"] == "keep-alive"
  }

  function Stream(ps: seq<Printed>): seq<char> {
    if ps == [] then [] else PrintHead(ps[0].request, ps[0].hs) + Stream(ps[1..])
  }

  function Heads(ps: seq<Printed>): seq<Parser> {
    if ps == [] then [] else [Parsed(ps[0].request, |PrintHead(ps[0].request, ps[0].hs)|)] + Heads(ps[1..])
  }

  function ServeAll(served: seq<Parser>, r: Result): Result {
    r.(served := served + r.served)
  }

  /** What the loop makes of one well-formed request: without its file it stops, and with any other Connection field
      than keep-alive, or none, it serves the request and stops; in both cases the rest stays in the buffer. */
  lemma OneRequest(r: Request, hs: seq<Header>, tail: seq<char>, opens: seq<char> -> bool)
    requires WellFormed(r) && Lists(hs, r.headers)
    ensures var l := Loop(START, PrintHead(r, hs) + tail, opens);
      var p := Parsed(r, |PrintHead(r, hs)|);
      if !opens(r.uri) then l == Result(NoFile, [], p, tail)
      else if "Connection" in r.headers && r.headers["Connection"] == "keep-alive" then
        var next := Loop(START, tail, opens);
        l == next.(served := [p] + next.served)
      else
        var headers := if "Connection" in r.headers then r.headers else r.headers["Connection" := ""];
        l == Result(Closing, [p], p.(headers := headers), tail)
  {
    hide Parse, PrintHead, WellFormed, Lists;
    var head := PrintHead(r, hs);
    HeadNotEmpty(r, hs);
    HeadRoundTripIff(r, hs, tail);
    assert Drop(head + tail, |head|) == tail;
  }

  /** Any number of complete keep-alive requests are served in order, and the loop goes on with whatever
      follows them exactly as if it had arrived alone. */
  lemma {:induction false} Pipelining(ps: seq<Printed>, tail: seq<char>, opens: seq<char> -> bool)
    requires forall i | 0 <= i < |ps| :: Servable(ps[i], opens)
    ensures Loop(START, Stream(ps) + tail, opens) == ServeAll(Heads(ps), Loop(START, tail, opens))
    decreases ps
  {
    hide Parse, PrintHead, WellFormed, Lists, Loop;
    if ps == [] {
      assert Stream(ps) + tail == tail;
      assert [] + Loop(START, tail, opens).served == Loop(START, tail, opens).served;
    } else {
      assert Servable(ps[0], opens);
      var r, hs, rest := ps[0].request, ps[0].hs, Stream(ps[1..]) + tail;
      var head := PrintHead(r, hs);
      assert Stream(ps) + tail == head + rest;
      OneRequest(r, hs, rest, opens);
      Pipelining(ps[1..], tail, opens);
      var more := Loop(START, tail, opens).served;
      assert Heads(ps) + more == [Parsed(r, |head|)] + (Heads(ps[1..]) + more);
    }
  }

  /** Input that begins with any other word than a method is a bad request: nothing is served or taken. */
  lemma OtherMethodIsBad(word: seq<char>, rest: seq<char>, opens: seq<char> -> bool)
    requires (forall i | 0 <= i < |word| :: word[i] != ' ')
    requires word != "GET" && word != "POST" && word != "OPTIONS" && word != "HEAD"
    requires word + rest != [] && (rest == [] || rest[0] == ' ')
    ensures Loop(START, word + rest, opens) ==
      Result(BadRequest, [], START.(progress := InvalidMethod), word + rest)
  {
    hide UriStage;
    var s := word + rest;
    FindIs(s, 0, |s|, ' ', |word|);
    assert s[0..|word|] == word;
    assert Drop(s, 0) == s;
  }

  /** What the loop makes of any head, as it may be written: another method or version is a bad request, and nothing is
      served; whatever is parsed is opened, served, and followed by the rest if its Connection is keep-alive. */
  lemma TextIsServed(name: seq<char>, t: seq<char>, how: seq<Spelling>, version: seq<char>, fs: seq<FieldText>,
                     eol: seq<char>, end: seq<char>, tail: seq<char>, opens: seq<char> -> bool)
    requires RequestText.Without(name, ' ') && SpellingOk(t, how) && RequestText.VersionOk(version)
    requires IsEol(eol) && IsEol(end) && forall i | 0 <= i < |fs| :: FieldTextOk(fs[i])
    ensures var s := RequestText.HeadText(name, Spell(t, how), version, FieldLines(fs, eol), eol, end) + tail;
      var l, p := Loop(START, s, opens), Parse(START, s);
      if name != "GET" && name != "POST" && name != "OPTIONS" && name != "HEAD" then
        l == Result(BadRequest, [], START.(progress := InvalidMethod), s)
      else if version != "HTTP/1.1" && version != "HTTP/1.0" then
        l.outcome.BadRequest? && l.served == [] && l.parser == p && p.progress.InvalidVersion?
      else if !opens(p.uri) then l == Result(NoFile, [], p, tail)
      else if "Connection" in p.headers && p.headers["Connection"] == "keep-alive" then
        var next := Loop(START, tail, opens);
        l == next.(served := [p] + next.served)
      else
        var headers := if "Connection" in p.headers then p.headers else p.headers["Connection" := ""];
        l == Result(Closing, [p], p.(headers := headers), tail)
  {
    hide Parse, FieldLines, FieldTextOk, IsEol, Spell, SpellingOk, RequestText.HeadText, RequestText.Without,
      RequestText.VersionOk, AllMeant, RequestText.IsUri, RequestText.IsQuery, Enter;
    var head := RequestText.HeadText(name, Spell(t, how), version, FieldLines(fs, eol), eol, end);
    RequestText.RequestTextParses(name, t, how, version, fs, eol, end, tail);
    TextNotEmpty(name, Spell(t, how), version, FieldLines(fs, eol), eol, end);
    assert Drop(head + tail, |head|) == tail && Drop(head + tail, 0) == head + tail;
  }

  /** A header line that is no field ends the loop by an exception, or by a read outside of the line. */
  lemma BrokenLineAborts(name: seq<char>, t: seq<char>, how: seq<Spelling>, version: seq<char>, fs: seq<FieldText>,
                         eol: seq<char>, line: seq<char>, rest: seq<char>, opens: seq<char> -> bool)
    requires name == "GET" || name == "POST" || name == "OPTIONS" || name == "HEAD"
    requires SpellingOk(t, how) && (version == "HTTP/1.1" || version == "HTTP/1.0")
    requires IsEol(eol) && forall i | 0 <= i < |fs| :: FieldTextOk(fs[i])
    requires RequestText.Without(line, '\n') && |line| + |eol| > 2 && NoField(LineText(line, eol))
    ensures var head := RequestText.HeadText(name, Spell(t, how), version, FieldLines(fs, eol), eol, line + eol);
      Loop(START, head + rest, opens).outcome.Aborted? && Loop(START, head + rest, opens).served == []
  {
    hide Parse, FieldLines, FieldTextOk, IsEol, Spell, SpellingOk, RequestText.HeadText, RequestText.Without, NoField,
      LineText;
    RequestText.BrokenLineIsUndefined(name, t, how, version, fs, eol, line, rest);
    TextNotEmpty(name, Spell(t, how), version, FieldLines(fs, eol), eol, line + eol);
  }

  lemma TextNotEmpty(name: seq<char>, target: seq<char>, version: seq<char>, fields: seq<char>, eol: seq<char>,
                     end: seq<char>)
    ensures RequestText.HeadText(name, target, version, fields, eol, end) != []
  {
  }

  lemma HeadNotEmpty(r: Request, hs: seq<Header>)
    ensures PrintHead(r, hs) != []
  {
    hide MethodName, Target, PrintHeaders;
  }

  /** A head that arrives in two read events, cut behind one of its header lines, is served like a head
      that arrives at once: the first event ends in NeedMore with an empty buffer. */
  lemma SplitHead(st: Parser, a: seq<char>, b: seq<char>, opens: seq<char> -> bool)
    requires a != [] && b != [] && Parse(st, a).progress.ParsingHeaders?
    ensures Loop(st, a, opens) == Result(NeedMore, [], Parse(st, a), [])
    ensures Loop(Parse(st, a), b, opens) == Loop(st, a + b, opens)
  {
    hide Parse;
    ParseResumes(st, a, b);
    var st1, st2 := Parse(st, a), Parse(st, a + b);
    ParseNeverShrinks(st1, b);
    assert Drop(b, Used(st1, st2)) == Drop(a + b, Used(st, st2)) by {
      assert Used(st, st2) == |a| + Used(st1, st2);
      if Used(st1, st2) <= |b| {
        assert (a + b)[|a| + Used(st1, st2)..] == b[Used(st1, st2)..];
      }
    }
  }

  lemma ParseNeverShrinks(st: Parser, s: seq<char>)
    ensures st.progress.ParsingHeaders? ==> Parse(st, s).bytes >= st.bytes
  {
    HeadersGrow(st, s, 0);
  }

  lemma LookedStays(p: Parser)
    ensures Looked(Looked(p)) == Looked(p) && Looked(p).progress == p.progress && Looked(p).uri == p.uri
    ensures KeepAlive(Looked(p).headers) <==> KeepAlive(p.headers)
  {
  }

  lemma GoodStays(p: Parser, buf: seq<char>)
    requires p.progress.Good?
    ensures Parse(p, buf) == p && !IsError(p) && Drop(buf, Used(p, p)) == buf
  {
  }

  lemma ServedAgain(p: Parser, opens: seq<char> -> bool, buf: seq<char>)
    requires p.progress.Good? && opens(p.uri) && !KeepAlive(p.headers) && buf != []
    ensures Loop(Looked(p), buf, opens) == Result(Closing, [Looked(p)], Looked(p), buf)
  {
    hide Parse, KeepAlive, Looked, IsError;
    LookedStays(p);
    GoodStays(Looked(p), buf);
  }

  /** After a request without keep-alive the parser is not cleared: whatever arrives next makes the loop
      serve the same request once more, and leaves the new bytes in the buffer. */
  lemma ClosingServesAgain(st: Parser, buf: seq<char>, opens: seq<char> -> bool, more: seq<char>)
    requires Loop(st, buf, opens).outcome.Closing? && Loop(st, buf, opens).buffer + more != []
    ensures var r := Loop(st, buf, opens);
      Loop(r.parser, r.buffer + more, opens) == Result(Closing, [r.parser], r.parser, r.buffer + more)
    decreases |buf|, if st.progress.Good? then 1 else 0
  {
    hide KeepAlive, Parse, Looked;
    var st1 := Parse(st, buf);
    var rest := Drop(buf, Used(st, st1));
    if KeepAlive(st1.headers) {
      if !st.progress.Good? {
        GoodConsumes(st, buf);
      }
      ClosingServesAgain(START, rest, opens, more);
    } else {
      ServedAgain(st1, opens, rest + more);
    }
  }

  // ---------- a head in two read events ----------

  /** Two read events: the second one finds what the first one left, followed by new bytes. */
  function TwoEvents(a: seq<char>, b: seq<char>, opens: seq<char> -> bool): Result {
    var r1 := Loop(START, a, opens);
    ServeAll(r1.served, Loop(r1.parser, r1.buffer + b, opens))
  }

  /** Whether the loop goes round again after a parse. */
  predicate GoesOn(st: Parser, opens: seq<char> -> bool) {
    st.progress.Good? && opens(st.uri) && KeepAlive(st.headers)
  }

  /** The first event on its own, when the parser stopped. */
  lemma FirstEvent(a: seq<char>, st: Parser, opens: seq<char> -> bool)
    requires a != [] && st == Parse(START, a) && Stopped(st) && (st.progress.Good? ==> st.bytes >= |a|)
    ensures var r := Loop(START, a, opens);
      if GoesOn(st, opens) then r == Result(Emptied, [st], START, [])
      else Stopped(r.parser) && !GoesOn(r.parser, opens)
  {
    hide Parse, KeepAlive, Looked;
    LookedStays(st);
    if GoesOn(st, opens) {
      assert Drop(a, Used(START, st)) == [];
    }
  }

  /** A stopped parser leaves everything in the buffer. */
  lemma StoppedLoop(st: Parser, buf: seq<char>, opens: seq<char> -> bool)
    requires Stopped(st) && !GoesOn(st, opens) && buf != []
    ensures Loop(st, buf, opens).buffer == buf
  {
    hide Parse, KeepAlive, Looked;
    StoppedStays(st, buf);
    assert Drop(buf, Used(st, st)) == buf;
  }

  lemma OneByteIsBad(b: seq<char>, opens: seq<char> -> bool)
    requires |b| == 1
    ensures Loop(START, b, opens).outcome == BadRequest
  {
    var f := Find(b, 0, 1, ' ');
    assert |b[0..f]| <= 1;
  }

  /** A whole head in one event leaves an empty buffer, and has served at most this request. */
  lemma WholeEvent(r: Request, hs: seq<Header>, opens: seq<char> -> bool)
    requires WellFormed(r) && Lists(hs, r.headers)
    ensures var w := Loop(START, PrintHead(r, hs), opens);
      && w.buffer == [] && w.outcome != BadRequest
      && (w.served == [] || w.served == [Parsed(r, |PrintHead(r, hs)|)])
  {
    hide Parse, PrintHead, WellFormed, Lists, KeepAlive, Looked;
    var head := PrintHead(r, hs);
    HeadNotEmpty(r, hs);
    WholeParse(r, hs);
    assert Drop(head, |head|) == [];
  }

  /** A well-formed request that arrives in two events is served like one that arrives at once iff it is cut
      behind its request line or behind one of its fields. */
  lemma SplitServedIff(r: Request, hs: seq<Header>, k: nat, opens: seq<char> -> bool)
    requires WellFormed(r) && Lists(hs, r.headers) && 0 < k < |PrintHead(r, hs)|
    ensures var head := PrintHead(r, hs);
      TwoEvents(head[..k], head[k..], opens) == Loop(START, head, opens) <==> LineCut(r, hs, k)
  {
    hide Parse, PrintHead, WellFormed, Lists, LineCut, Loop, GoesOn, Stopped;
    var head := PrintHead(r, hs);
    var a, b := head[..k], head[k..];
    var st := Parse(START, a);
    CutParse(r, hs, k);
    assert a + b == head;
    if LineCut(r, hs, k) {
      SplitHead(START, a, b, opens);
      assert [] + b == b;
      var w := Loop(START, head, opens);
      assert [] + w.served == w.served;
    } else {
      GoodIsStopped(st);
      WholeEvent(r, hs, opens);
      FirstEvent(a, st, opens);
      var r1 := Loop(START, a, opens);
      assert r1.buffer + b != [];
      if GoesOn(st, opens) {
        assert [] + b == b;
        if k == |head| - 1 {
          OneByteIsBad(b, opens);
        } else {
          assert (r1.served + Loop(r1.parser, r1.buffer + b, opens).served)[0] == st;
          GoesOnIsGood(st, opens);
        }
      } else {
        StoppedLoop(r1.parser, r1.buffer + b, opens);
      }
    }
  }

  lemma GoodIsStopped(st: Parser)
    ensures st.progress.Good? ==> Stopped(st)
  {
  }

  lemma GoesOnIsGood(st: Parser, opens: seq<char> -> bool)
    ensures GoesOn(st, opens) ==> st.progress.Good?
  {
  }

  // ---------- this library's own client ----------

  /** The server serves the head, and goes on with the body, the NUL and the body as if they were the next
      request; without a body, the NUL alone is a bad request. */
  lemma ClientMeetsServer(p: Printed, opens: seq<char> -> bool)
    requires Servable(p, opens)
    ensures var r := p.request;
      Loop(START, ClientBytes(r, p.hs), opens) ==
        ServeAll([Parsed(r, |PrintHead(r, p.hs)|)], Loop(START, r.body + "\0" + r.body, opens))
    ensures p.request.body == [] ==> Loop(START, ClientBytes(p.request, p.hs), opens).outcome == BadRequest
  {
    hide Parse, PrintHead, WellFormed, Lists, KeepAlive, Loop, Parsed;
    var r, rest := p.request, p.request.body + "\0" + p.request.body;
    var head, ps := PrintHead(r, p.hs), [p];
    assert ps[1..] == [] && Stream(ps) == head + Stream(ps[1..]) == head;
    assert Heads(ps) == [Parsed(r, |head|)] + Heads(ps[1..]) == [Parsed(r, |head|)];
    assert ClientBytes(r, p.hs) == head + rest;
    Pipelining(ps, rest, opens);
    if r.body == [] {
      assert rest == "\0";
      OneByteIsBad(rest, opens);
    }
  }

  // ---------- in place ----------

  /** The branch that the loop takes after a parse; Emptied stands for going round again. */
  function Verdict(st: Parser, opens: seq<char> -> bool): Outcome {
    if st.progress.Undefined? then Aborted
    else if IsError(st) then BadRequest
    else if !st.progress.Good? then NeedMore
    else if !opens(st.uri) then NoFile
    else if !KeepAlive(st.headers) then Closing
    else Emptied
  }

  /** One round of the loop. */
  lemma Round(st: Parser, buf: seq<char>, opens: seq<char> -> bool, served: seq<Parser>)
    requires buf != []
    ensures var st1 := Parse(st, buf);
      var rest := Drop(buf, Used(st, st1));
      var v := Verdict(st1, opens);
      ServeAll(served, Loop(st, buf, opens)) ==
        if v.Emptied? then ServeAll(served + [st1], Loop(START, rest, opens))
        else if v.Closing? then Result(v, served + [st1], Looked(st1), rest)
        else Result(v, served, st1, rest)
    ensures Verdict(Parse(st, buf), opens).Emptied? && !st.progress.Good? ==> Parse(st, buf).bytes > st.bytes
  {
    hide Parse, KeepAlive, Looked;
    var st1 := Parse(st, buf);
    var rest := Drop(buf, Used(st, st1));
    if st1.progress.Good? && !st.progress.Good? {
      GoodConsumes(st, buf);
    }
    assert served + [] == served;
    var next := Loop(START, rest, opens);
    assert served + ([st1] + next.served) == served + [st1] + next.served;
  }

  /** handleReadEvent with the parser of the connection's context. */
  method HandleReadEvent(parser: RequestParser, b: Buffer, opens: seq<char> -> bool)
    returns (outcome: Outcome, served: seq<Parser>)
    requires b.Valid()
    modifies parser, b`left, b`right
    ensures b.Valid()
    ensures Result(outcome, served, parser.View(), b.Contents())
         == Loop(old(parser.View()), old(b.Contents()), opens)
  {
    hide Parse, Verdict;
    served := [];
    ghost var goal := Loop(parser.View(), b.Contents(), opens);
    assert [] + goal.served == goal.served;
    while !b.Empty()
      invariant b.Valid()
      invariant ServeAll(served, Loop(parser.View(), b.Contents(), opens)) == goal
      decreases |b.Contents()|, if parser.progress.Good? then 1 else 0
    {
      hide Loop;
      ghost var st, buf := parser.View(), b.Contents();
      Round(st, buf, opens, served);
      var saved := parser.bytes;
      var window := b.data[b.left..b.right];
      parser.Parse(window);
      b.Retrieve(if parser.bytes >= saved then parser.bytes - saved else 0);
      var st1 := Parser(parser.progress, parser.bytes, parser.method_, parser.uri, parser.query,
                        parser.major, parser.minor, parser.headers);
      assert b.Contents() == Drop(buf, Used(st, st1));
      outcome := Verdict(st1, opens);
      if !outcome.Emptied? {
        if outcome.Closing? {
          served := served + [st1];
          if "Connection" !in parser.headers {
            parser.headers := parser.headers["Connection" := ""];
          }
        }
        return;
      }
      served := served + [st1];
      parser.Clear();
    }
    outcome := Emptied;
    assert served + [] == served;
  }
}
