/** The HTTP client (src/http/HttpClient.cpp): requests are sent, and replies matched to them, in order. */
module HttpClients {
  import opened Wrappers
  import opened HttpText
  import opened HttpReply
  import opened Buffers
  import HttpRequest

  /** How handleReadEvent ends. */
  datatype Outcome =
    | Emptied      // the read buffer is empty
    | Failed       // the parser reported an error: the client destroys itself
    | NoRequest    // a reply without an outstanding request: front() of an empty list
    | Spinning     // parse consumed nothing and the loop goes round forever
    | Aborted      // parse throws or reads outside its input

  datatype Delivery = Delivery(request: nat, reply: Parser)

  datatype Result = Result(
    outcome: Outcome, delivered: seq<Delivery>, parser: Parser, buffer: seq<char>, outstanding: seq<nat>)

  function Deliver(d: Delivery, r: Result): Result {
    r.(delivered := [d] + r.delivered)
  }

  /** The loop of handleReadEvent. */
  function Loop(st: Parser, buf: seq<char>, outstanding: seq<nat>): Result
    decreases |outstanding|, |buf|
  {
    if buf == [] then Result(Emptied, [], st, buf, outstanding)
    else
      var st1 := Parse(st, buf);
      var n := if st1.bytes >= st.bytes then st1.bytes - st.bytes else 0;
      var rest := Drop(buf, n);
      if st1.progress.Undefined? then Result(Aborted, [], st1, rest, outstanding)
      else if IsError(st1) then Result(Failed, [], st1, rest, outstanding)
      else if st1.progress.Good? then
        if outstanding == [] then Result(NoRequest, [], st1, rest, outstanding)
        else Deliver(Delivery(outstanding[0], st1), Loop(START, rest, outstanding[1..]))
      else if n == 0 then Result(Spinning, [], st1, rest, outstanding)
      else Loop(st1, rest, outstanding)
  }

  function Requests(ds: seq<Delivery>): seq<nat> {
    if ds == [] then [] else [ds[0].request] + Requests(ds[1..])
  }

  /** Whatever arrives, replies go to the outstanding requests from the front on, one each. */
  lemma {:induction false} ServesInOrder(st: Parser, buf: seq<char>, outstanding: seq<nat>)
    ensures var r := Loop(st, buf, outstanding); Requests(r.delivered) + r.outstanding == outstanding
    decreases |outstanding|, |buf|
  {
    hide Parse, IsError;
    var st1 := Parse(st, buf);
    var n := if st1.bytes >= st.bytes then st1.bytes - st.bytes else 0;
    var rest := Drop(buf, n);
    if buf != [] && !st1.progress.Undefined? && !IsError(st1) {
      if st1.progress.Good? {
        if outstanding != [] {
          ServesInOrder(START, rest, outstanding[1..]);
          DeliverFirst(Delivery(outstanding[0], st1), Loop(START, rest, outstanding[1..]));
        }
      } else if n != 0 {
        ServesInOrder(st1, rest, outstanding);
      }
    }
  }

  lemma DeliverFirst(d: Delivery, r: Result)
    ensures Requests(Deliver(d, r).delivered) == [d.request] + Requests(r.delivered)
  {
    assert ([d] + r.delivered)[1..] == r.delivered;
  }

  // ---------- pipelined replies ----------

  /** A reply with the order in which its headers are iterated. */
  datatype Printed = Printed(reply: Reply, hs: seq<Header>)

  ghost predicate AllWellFormed(ps: seq<Printed>) {
    forall i | 0 <= i < |ps| :: WellFormed(ps[i].reply) && Lists(ps[i].hs, WithLength(ps[i].reply))
  }

  /** Everything the server sent, one reply behind the other. */
  function Stream(ps: seq<Printed>): seq<char> {
    if ps == [] then [] else ToString(ps[0].reply, ps[0].hs) + Stream(ps[1..])
  }

  /** The i-th reply goes to the i-th outstanding request. */
  function Deliveries(ps: seq<Printed>, outstanding: seq<nat>): seq<Delivery>
    requires |ps| <= |outstanding|
  {
    if ps == [] then []
    else [Delivery(outstanding[0], Parsed(ps[0].reply, |ToString(ps[0].reply, ps[0].hs)|))]
         + Deliveries(ps[1..], outstanding[1..])
  }

  lemma ToStringNotEmpty(r: Reply, hs: seq<Header>)
    ensures ToString(r, hs) != []
  {
    hide StatusNumber, StatusString, PrintHeaders;
  }

  /** On any sequence of well-formed replies the loop ends with an empty buffer and a fresh parser, and it
      has handed every reply, content included, to its own request. */
  lemma {:induction false} Pipelining(ps: seq<Printed>, outstanding: seq<nat>)
    requires AllWellFormed(ps) && |ps| <= |outstanding|
    ensures Loop(START, Stream(ps), outstanding) ==
      Result(Emptied, Deliveries(ps, outstanding), START, [], outstanding[|ps|..])
    decreases ps
  {
    hide Parse, ToString, WellFormed, Lists, WithLength;
    if ps != [] {
      var r, hs, rest := ps[0].reply, ps[0].hs, Stream(ps[1..]);
      var head := ToString(r, hs);
      ToStringNotEmpty(r, hs);
      ReplyRoundTripIff(r, hs, rest);
      assert Parse(START, head + rest) == Parsed(r, |head|);
      assert (head + rest)[|head|..] == rest;
      Pipelining(ps[1..], outstanding[1..]);
    }
  }

  // ---------- spinning ----------

  lemma {:induction false} HeadersAdvance(st: Parser, s: seq<char>, p: nat)
    ensures var r := HeaderStage(st, s, p);
      r.bytes >= st.bytes && (p < |s| && !r.progress.Undefined? ==> r.bytes > st.bytes)
    decreases |s| + 1 - p
  {
    hide NextLine, Stoi;
    if p <= |s| && NextLine(s, p).Field? {
      var h, next := NextLine(s, p).header, NextLine(s, p).next;
      HeadersAdvance(st.(headers := st.headers[h.key := h.value], bytes := st.bytes + next - p), s, next);
    }
  }

  lemma StatusStringAdvances(st: Parser, s: seq<char>, p: nat)
    ensures var r := StatusStringStage(st, s, p); r.bytes > st.bytes || r.progress.Undefined?
  {
    hide HeaderStage;
    if p <= |s| {
      var f := Find(s, p, |s|, '\n');
      HeadersAdvance(st.(progress := ParsingHeaders, bytes := st.bytes + f + 1 - p), s, f + 1);
    }
  }

  lemma StatusAdvances(st: Parser, s: seq<char>, p: nat)
    ensures var r := StatusStage(st, s, p); r.bytes > st.bytes || r.progress.Undefined? || r == st
  {
    hide StatusStringStage, Stoi;
    if p <= |s| {
      var f := Find(s, p, |s|, ' ');
      var v := Stoi(s[p..f]);
      if v.Some? && v.value >= 0 && Known(v.value) {
        StatusStringAdvances(
          st.(progress := ParsingStatusString, status := v.value, bytes := st.bytes + f + 1 - p), s, f + 1);
      }
    }
  }

  /** A parse that consumes nothing, and neither ends the reply nor fails, changes nothing at all. */
  lemma NoAdvanceChangesNothing(st: Parser, s: seq<char>)
    requires s != [] && Parse(st, s).bytes <= st.bytes
    requires !Parse(st, s).progress.Good? && !Parse(st, s).progress.Undefined? && !IsError(Parse(st, s))
    ensures Parse(st, s) == st
  {
    hide HeaderStage, StatusStage, StatusStringStage;
    match st.progress
    case ParsingHeaders => HeadersAdvance(st, s, 0);
    case ParsingStatus => StatusAdvances(st, s, 0);
    case ParsingStatusString => StatusStringAdvances(st, s, 0);
    case ParseStarting => VersionAdvances(st.(progress := ParsingVersion), s);
    case ParsingVersion => VersionAdvances(st, s);
    case _ =>
  }

  lemma VersionAdvances(st: Parser, s: seq<char>)
    ensures var r := VersionStage(st, s); r.bytes > st.bytes || r.progress.Undefined? || IsError(r)
  {
    hide StatusStage;
    var f := Find(s, 0, |s|, ' ');
    StatusAdvances(st.(progress := ParsingStatus, bytes := st.bytes + f + 1), s, f + 1);
  }

  /** So where the model stops as Spinning, the next round of the loop would find the same parser and the
      same buffer, and so would every later one. */
  lemma {:induction false} SpinningIsForever(st: Parser, buf: seq<char>, outstanding: seq<nat>)
    requires Loop(st, buf, outstanding).outcome.Spinning?
    ensures var r := Loop(st, buf, outstanding);
      r.buffer != [] && Parse(r.parser, r.buffer) == r.parser
    decreases |outstanding|, |buf|
  {
    hide Parse;
    var st1 := Parse(st, buf);
    var n := if st1.bytes >= st.bytes then st1.bytes - st.bytes else 0;
    if st1.progress.Good? {
      SpinningIsForever(START, Drop(buf, n), outstanding[1..]);
    } else if n == 0 {
      NoAdvanceChangesNothing(st, buf);
      assert buf[0..] == buf;
    } else {
      SpinningIsForever(st1, Drop(buf, n), outstanding);
    }
  }

  // ---------- in place ----------

  /** The class ReplyParser: the fields that parse updates. */
  class ReplyParser {
    var progress: Progress
    var bytes: nat
    var status: nat
    var content: seq<char>
    var headers: map<seq<char>, seq<char>>

    ghost function View(): Parser
      reads this
    {
      Parser(progress, bytes, status, content, headers)
    }

    constructor ()
      ensures View() == START
    {
      progress, bytes, status, content, headers := ParseStarting, 0, 0, [], map[];
    }

    method Clear()
      modifies this
      ensures View() == START
    {
      progress, bytes, status, content, headers := ParseStarting, 0, 0, [], map[];
    }

    method ParseReply(s: seq<char>)
      modifies this
      ensures View() == Parse(old(View()), s)
    {
      if progress.ParseStarting? {
        progress := ParsingVersion;
      }
      match progress {
        case ParsingVersion => ParseVersion(s);
        case ParsingStatus => ParseStatus(s, 0);
        case ParsingStatusString => ParseStatusString(s, 0);
        case ParsingHeaders => ParseHeaders(s, 0);
        case ParsingBody => ParseBody(s, 0);
        case _ =>
      }
    }

    method ParseVersion(s: seq<char>)
      modifies this
      ensures View() == VersionStage(old(View()), s)
    {
      hide StatusStage;
      var finish := Find(s, 0, |s|, ' ');
      if s[0..finish] != "HTTP/1.1" {
        progress := InvalidVersion;
        return;
      }
      progress, bytes := ParsingStatus, bytes + finish + 1;
      ParseStatus(s, finish + 1);
    }

    method ParseStatus(s: seq<char>, begin: nat)
      modifies this
      ensures View() == StatusStage(old(View()), s, begin)
    {
      hide StatusStringStage, Stoi;
      if begin > |s| {
        progress := Undefined;
        return;
      }
      var finish := Find(s, begin, |s|, ' ');
      var number := Stoi(s[begin..finish]);
      if number.None? {
        progress := Undefined;
        return;
      }
      if number.value < 0 || !Known(number.value) {
        return;
      }
      progress, status := ParsingStatusString, number.value;
      bytes := bytes + finish + 1 - begin;
      ParseStatusString(s, finish + 1);
    }

    method ParseStatusString(s: seq<char>, begin: nat)
      modifies this
      ensures View() == StatusStringStage(old(View()), s, begin)
    {
      hide HeaderStage;
      if begin > |s| {
        progress := Undefined;
        return;
      }
      var finish := Find(s, begin, |s|, '\n');
      if finish == 0 {
        progress := Undefined;
        return;
      }
      progress, bytes := ParsingHeaders, bytes + finish + 1 - begin;
      ParseHeaders(s, finish + 1);
    }

    method ParseHeaders(s: seq<char>, begin0: nat)
      modifies this
      ensures View() == HeaderStage(old(View()), s, begin0)
    {
      hide NextLine, BodyStage;
      var begin := begin0;
      while begin != |s|
        invariant HeaderStage(View(), s, begin) == HeaderStage(old(View()), s, begin0)
        decreases |s| + 1 - begin
      {
        if begin > |s| {
          progress := Undefined;
          return;
        }
        var line := NextLine(s, begin);
        if line.Blank? {
          progress, bytes := ParsingBody, bytes + line.next - begin;
          ParseBody(s, line.next);
          return;
        } else if line.Broken? {
          progress := Undefined;
          return;
        }
        headers := headers[line.header.key := line.header.value];
        bytes := bytes + line.next - begin;
        begin := line.next;
      }
      ParseBody(s, begin);
    }

    method ParseBody(s: seq<char>, begin: nat)
      modifies this
      ensures View() == BodyStage(old(View()), s, begin)
    {
      hide Stoi;
      var length := if LENGTH in headers then Stoi(headers[LENGTH]) else Stoi("");
      if length.None? || length.value < 0 {
        progress := Undefined;
      } else if length.value == 0 {
        progress := Good;
      } else if |s| - begin >= length.value {
        progress, bytes := Good, bytes + length.value;
        content := content + s[begin..begin + length.value];
      }
    }
  }

  // ---------- the client ----------

  /** A request given to get, with the order in which its headers are iterated; `id` stands for its handler. */
  datatype Asked = Asked(id: nat, request: HttpRequest.Request, hs: seq<Header>)

  function Ids(rs: seq<Asked>): (ids: seq<nat>)
    ensures |ids| == |rs|
  {
    seq(|rs|, i requires 0 <= i < |rs| => rs[i].id)
  }

  /** The bytes of requests that are sent one after the other. */
  function WireOf(rs: seq<Asked>): seq<char> {
    if rs == [] then []
    else WireOf(rs[..|rs| - 1]) + HttpRequest.ClientBytes(rs[|rs| - 1].request, rs[|rs| - 1].hs)
  }

  lemma OneMoreSent(rs: seq<Asked>, r: Asked)
    ensures WireOf(rs + [r]) == WireOf(rs) + HttpRequest.ClientBytes(r.request, r.hs)
    ensures Ids(rs + [r]) == Ids(rs) + [r.id]
  {
    assert (rs + [r])[..|rs|] == rs;
  }

  /** The requests given to get, in order, are those that are sent, dropped and waiting. */
  ghost predicate InOrder<T>(asked: seq<T>, sent: seq<T>, dropped: seq<T>, waiting: seq<T>) {
    asked == sent + dropped + waiting
  }

  lemma OneAsked<T>(asked: seq<T>, sent: seq<T>, dropped: seq<T>, waiting: seq<T>, r: T)
    requires InOrder(asked, sent, dropped, waiting)
    ensures InOrder(asked + [r], sent, dropped, waiting + [r])
  {
  }

  lemma OneSent<T>(asked: seq<T>, sent: seq<T>, waiting: seq<T>)
    requires InOrder(asked, sent, [], waiting) && waiting != []
    ensures InOrder(asked, sent + [waiting[0]], [], waiting[1..])
  {
  }

  lemma AllDropped<T>(asked: seq<T>, sent: seq<T>, dropped: seq<T>, waiting: seq<T>)
    requires InOrder(asked, sent, dropped, waiting)
    ensures InOrder(asked, sent, dropped + waiting, [])
  {
  }

  class HttpClient {
    const parser: ReplyParser
    var waiting: seq<Asked>       // requestLists_
    var outstanding: seq<nat>     // sendReqeustLists_
    var connected: bool           // http_conn_
    ghost var asked: seq<Asked>   // what was given to get, in order
    ghost var sent: seq<Asked>    // the requests that went onto the connection
    ghost var wire: seq<char>     // the bytes that were given to it
    ghost var answered: seq<nat>  // the requests whose handlers were called, in order
    ghost var dropped: seq<Asked> // what destroy() took from the waiting requests

    /** Every request is sent, dropped or waiting, and every sent one is answered or outstanding, in the order of
        the calls of get; the connection got the bytes of those that were sent. */
    ghost predicate Valid()
      reads this
    {
      && InOrder(asked, sent, dropped, waiting) && (dropped != [] ==> !connected)
      && answered + outstanding == Ids(sent)
      && wire == WireOf(sent)
    }

    constructor ()
      ensures fresh(parser) && parser.View() == START
      ensures Valid() && asked == [] && !connected
    {
      parser := new ReplyParser();
      waiting, outstanding, connected := [], [], false;
      asked, sent, wire, answered, dropped := [], [], [], [], [];
    }

    /** sendRequest: the first waiting request goes onto the connection. */
    method SendRequest() returns (r: Asked)
      requires Valid() && connected && waiting != []
      modifies this`waiting, this`outstanding, this`sent, this`wire
      ensures Valid() && [r] + waiting == old(waiting) && sent == old(sent) + [r]
      ensures outstanding == old(outstanding) + [r.id]
      ensures wire == old(wire) + HttpRequest.ClientBytes(r.request, r.hs)
    {
      hide WireOf, Ids, InOrder;
      r := waiting[0];
      var buffer := Written(r);
      OneSent(asked, sent, waiting);
      assert answered + (outstanding + [r.id]) == answered + outstanding + [r.id];
      OneMoreSent(sent, r);
      sent, wire := sent + [r], wire + buffer.Contents();
      outstanding, waiting := outstanding + [r.id], waiting[1..];
    }

    method Get(request: Asked) returns (sentNow: seq<Asked>)
      requires Valid()
      modifies this`waiting, this`outstanding, this`asked, this`sent, this`wire
      ensures Valid() && asked == old(asked) + [request] && sent == old(sent) + sentNow
      ensures sentNow + waiting == old(waiting) + [request] && outstanding == old(outstanding) + Ids(sentNow)
      ensures |sentNow| == if connected then 1 else 0
    {
      hide WireOf, InOrder;
      OneAsked(asked, sent, dropped, waiting, request);
      waiting, asked := waiting + [request], asked + [request];
      sentNow := [];
      if connected {
        var r := SendRequest();
        sentNow := [r];
      }
    }

    /** handleConnection: the connection is established. */
    method HandleConnection() returns (sentNow: seq<Asked>)
      requires Valid() && dropped == []
      modifies this`waiting, this`outstanding, this`connected, this`sent, this`wire
      ensures Valid() && connected && sent == old(sent) + sentNow
      ensures sentNow + waiting == old(waiting) && outstanding == old(outstanding) + Ids(sentNow)
      ensures |sentNow| == if old(waiting) == [] then 0 else 1
    {
      hide WireOf, InOrder;
      connected, sentNow := true, [];
      if waiting != [] {
        var r := SendRequest();
        sentNow := [r];
      }
    }

    /** The completion handler of a sent request: the next one follows. */
    method RequestWritten() returns (sentNow: seq<Asked>)
      requires Valid() && connected
      modifies this`waiting, this`outstanding, this`sent, this`wire
      ensures Valid() && sent == old(sent) + sentNow
      ensures sentNow + waiting == old(waiting) && outstanding == old(outstanding) + Ids(sentNow)
      ensures |sentNow| == if old(waiting) == [] then 0 else 1
    {
      hide WireOf, InOrder;
      sentNow := [];
      if waiting != [] {
        var r := SendRequest();
        sentNow := [r];
      }
    }

    method Destroy()
      requires Valid()
      modifies this`waiting, this`connected, this`dropped
      ensures Valid() && waiting == [] && !connected && dropped == old(dropped) + old(waiting)
    {
      hide WireOf, Ids, InOrder;
      AllDropped(asked, sent, dropped, waiting);
      dropped := dropped + waiting;
      waiting, connected := [], false;
    }

    /** handleReadEvent on the connection's read buffer; `delivered` lists the handler calls. */
    method HandleReadEvent(b: Buffer) returns (outcome: Outcome, delivered: seq<Delivery>)
      requires Valid() && b.Valid()
      modifies this, parser, b`left, b`right
      ensures Valid() && b.Valid()
      ensures Result(outcome, delivered, parser.View(), b.Contents(), outstanding)
           == Loop(old(parser.View()), old(b.Contents()), old(outstanding))
      ensures answered == old(answered) + Requests(delivered)
      ensures asked == old(asked) && sent == old(sent) && wire == old(wire)
      ensures if outcome.Failed? then waiting == [] && !connected
              else waiting == old(waiting) && connected == old(connected)
    {
      hide Loop, WireOf, Ids, InOrder;
      ServesInOrder(parser.View(), b.Contents(), outstanding);
      outcome, delivered := ReadReplies(b);
      answered := answered + Requests(delivered);
      if outcome.Failed? {
        Destroy();
      }
    }

    /** The loop of handleReadEvent. */
    method ReadReplies(b: Buffer) returns (outcome: Outcome, delivered: seq<Delivery>)
      requires b.Valid()
      modifies this`outstanding, parser, b`left, b`right
      ensures b.Valid()
      ensures Result(outcome, delivered, parser.View(), b.Contents(), outstanding)
           == Loop(old(parser.View()), old(b.Contents()), old(outstanding))
    {
      hide Parse, Join, Loop, Verdict;
      delivered := [];
      JoinNone(Loop(parser.View(), b.Contents(), outstanding));
      ghost var goal := Loop(parser.View(), b.Contents(), outstanding);
      while !b.Empty()
        invariant b.Valid()
        invariant Join(delivered, Loop(parser.View(), b.Contents(), outstanding)) == goal
        decreases |outstanding|, |b.Contents()|
      {
        Round(parser.View(), b.Contents(), outstanding, delivered);
        ghost var buf := b.Contents();
        var saved := parser.bytes;
        parser.ParseReply(b.data[b.left..b.right]);
        var n := if parser.bytes >= saved then parser.bytes - saved else 0;
        b.Retrieve(n);
        var st1 := Parser(parser.progress, parser.bytes, parser.status, parser.content, parser.headers);
        outcome := Verdict(st1, n, outstanding);
        if !outcome.Emptied? {
          return;
        }
        VerdictMeans(st1, n, outstanding);
        if st1.progress.Good? {
          delivered := delivered + [Delivery(outstanding[0], st1)];
          parser.Clear();
          outstanding := outstanding[1..];
        }
      }
      outcome := Emptied;
      EmptyLoop(delivered, parser.View(), outstanding);
    }
  }

  /** The buffer that sendRequest fills. */
  method Written(r: Asked) returns (buffer: Buffer)
    ensures fresh(buffer) && fresh(buffer.data) && buffer.Valid()
    ensures buffer.Contents() == HttpRequest.ClientBytes(r.request, r.hs)
  {
    buffer := new Buffer(1024);
    buffer.AppendString(HttpRequest.ToString(r.request, r.hs));
    if r.request.body != [] {
      buffer.Append(r.request.body);
    }
    assert [] + HttpRequest.ToString(r.request, r.hs) == HttpRequest.ToString(r.request, r.hs);
  }

  /** How handleReadEvent ends after a parse that consumed n bytes; Emptied stands for going round again. */
  function Verdict(st: Parser, n: nat, outstanding: seq<nat>): Outcome {
    if st.progress.Undefined? then Aborted
    else if IsError(st) then Failed
    else if st.progress.Good? then (if outstanding == [] then NoRequest else Emptied)
    else if n == 0 then Spinning
    else Emptied
  }

  lemma VerdictMeans(st: Parser, n: nat, outstanding: seq<nat>)
    ensures Verdict(st, n, outstanding).Emptied? ==> if st.progress.Good? then outstanding != [] else n > 0
  {
  }

  /** One round of the loop. */
  lemma Round(st: Parser, buf: seq<char>, outstanding: seq<nat>, before: seq<Delivery>)
    requires buf != []
    ensures var st1 := Parse(st, buf);
      var n := if st1.bytes >= st.bytes then st1.bytes - st.bytes else 0;
      var rest, v := Drop(buf, n), Verdict(st1, n, outstanding);
      Join(before, Loop(st, buf, outstanding)) ==
        if !v.Emptied? then Result(v, before, st1, rest, outstanding)
        else if st1.progress.Good? && outstanding != [] then
          Join(before + [Delivery(outstanding[0], st1)], Loop(START, rest, outstanding[1..]))
        else Join(before, Loop(st1, rest, outstanding))
  {
    hide Parse, Join, Deliver, IsError;
    var st1 := Parse(st, buf);
    var n := if st1.bytes >= st.bytes then st1.bytes - st.bytes else 0;
    var rest := Drop(buf, n);
    JoinEmpty(before, st1, rest, outstanding, Verdict(st1, n, outstanding));
    if st1.progress.Good? && outstanding != [] {
      JoinDeliver(before, Delivery(outstanding[0], st1), Loop(START, rest, outstanding[1..]));
    }
  }

  lemma EmptyLoop(before: seq<Delivery>, st: Parser, outstanding: seq<nat>)
    ensures Join(before, Loop(st, [], outstanding)) == Result(Emptied, before, st, [], outstanding)
  {
    JoinEmpty(before, st, [], outstanding, Emptied);
  }

  ghost function Join(before: seq<Delivery>, r: Result): Result {
    r.(delivered := before + r.delivered)
  }

  lemma JoinNone(r: Result)
    ensures Join([], r) == r
  {
    assert [] + r.delivered == r.delivered;
  }

  lemma JoinEmpty(before: seq<Delivery>, st: Parser, buf: seq<char>, outstanding: seq<nat>, outcome: Outcome)
    ensures Join(before, Result(outcome, [], st, buf, outstanding)) == Result(outcome, before, st, buf, outstanding)
  {
    assert before + [] == before;
  }

  lemma JoinDeliver(before: seq<Delivery>, d: Delivery, r: Result)
    ensures Join(before, Deliver(d, r)) == Join(before + [d], r)
  {
    assert before + ([d] + r.delivered) == before + [d] + r.delivered;
  }

  /** In every state of the client, the k-th answered request is the k-th one given to get. */
  lemma AnswersFollowGets(c: HttpClient, k: nat)
    requires c.Valid() && k < |c.answered|
    ensures k < |c.asked| && c.answered[k] == c.asked[k].id
  {
    assert c.answered[k] == (c.answered + c.outstanding)[k] == c.sent[k].id;
    assert c.asked[k] == (c.sent + c.dropped + c.waiting)[k];
  }

  /** And the connection got the bytes of the requests given to get first, each exactly once: of those that are
      answered or outstanding. */
  lemma WireFollowsGets(c: HttpClient)
    requires c.Valid()
    ensures var n := |c.answered| + |c.outstanding|; n <= |c.asked| && c.wire == WireOf(c.asked[..n])
  {
    assert |c.sent| == |c.answered + c.outstanding|;
    assert c.asked[..|c.sent|] == c.sent;
  }
}
