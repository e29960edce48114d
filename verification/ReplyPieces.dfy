/** A printed reply that arrives at the client in two read events (src/http/HttpClient.cpp): exactly when it is
    delivered as if it had arrived at once. */
module ReplyPieces {
  import opened Wrappers
  import opened HttpText
  import opened HttpReply
  import opened HttpClients
  import opened ReplyCuts
  import opened Buffers

  /** Two read events: the second one happens when the first has left the loop with an empty buffer. */
  function TwoEvents(a: seq<char>, b: seq<char>, outstanding: seq<nat>): Result {
    var r1 := Loop(START, a, outstanding);
    if r1.outcome.Emptied? then
      var r2 := Loop(r1.parser, r1.buffer + b, r1.outstanding);
      r2.(delivered := r1.delivered + r2.delivered)
    else r1
  }

  /** Position k of the printed reply lies behind j of its fields, the length among them. */
  predicate BehindLength(r: Reply, hs: seq<Header>, k: nat, j: nat)
    requires j <= |hs|
  {
    k == BehindStatus(r.status).bytes + |PrintHeaders(hs[..j])| && LENGTH in Enter(map[], hs[..j])
  }

  /** The cuts that do no harm: with a content, behind a field from the length on, and at the end of the head;
      without one, in front of the last byte, if nobody waits for the reply. */
  ghost predicate HarmlessCut(r: Reply, hs: seq<Header>, k: nat, outstanding: seq<nat>) {
    if r.content == [] then outstanding == [] && k == |ToString(r, hs)| - 1
    else
      || k == |ToString(r, hs)| - |r.content|
      || exists j | 0 <= j <= |hs| :: BehindLength(r, hs, k, j)
  }

  /** The loop on a reply that ends with its input. */
  function Delivered(st: Parser, outstanding: seq<nat>): Result {
    if outstanding == [] then Result(NoRequest, [], st, [], [])
    else Result(Emptied, [Delivery(outstanding[0], st)], START, [], outstanding[1..])
  }

  lemma GoodAtEnd(st: Parser, s: seq<char>, outstanding: seq<nat>)
    requires s != [] && Parse(st, s).progress.Good? && Parse(st, s).bytes >= st.bytes + |s|
    ensures Loop(st, s, outstanding) == Delivered(Parse(st, s), outstanding)
  {
    hide Parse;
    var st1 := Parse(st, s);
    assert Drop(s, st1.bytes - st.bytes) == [];
  }

  lemma WholeReply(r: Reply, hs: seq<Header>, outstanding: seq<nat>)
    requires WellFormed(r) && Lists(hs, WithLength(r))
    ensures Parse(START, ToString(r, hs)) == Parsed(r, |ToString(r, hs)|)
    ensures Loop(START, ToString(r, hs), outstanding) == Delivered(Parsed(r, |ToString(r, hs)|), outstanding)
  {
    hide Parse, ToString, WellFormed, Lists, WithLength, Loop;
    ToStringNotEmpty(r, hs);
    ReplyRoundTripIff(r, hs, []);
    assert ToString(r, hs) + [] == ToString(r, hs);
    GoodAtEnd(START, ToString(r, hs), outstanding);
  }

  // ---------- how the first event ends ----------

  /** It fails: then it is not what the whole reply does. */
  lemma FailedFirst(a: seq<char>, b: seq<char>, outstanding: seq<nat>, w: Parser)
    requires a != [] && (Parse(START, a).progress.Undefined? || IsError(Parse(START, a)))
    ensures TwoEvents(a, b, outstanding) != Delivered(w, outstanding)
  {
    hide Parse;
  }

  lemma SpinningFirst(a: seq<char>, b: seq<char>, outstanding: seq<nat>, w: Parser)
    requires Loop(START, a, outstanding).outcome.Spinning?
    ensures TwoEvents(a, b, outstanding) != Delivered(w, outstanding)
  {
    hide Loop;
  }

  /** It takes the piece for the whole reply. */
  lemma GoodFirst(a: seq<char>, b: seq<char>, outstanding: seq<nat>, w: Parser)
    requires a != [] && |b| > 0 && Parse(START, a).progress.Good? && Parse(START, a).bytes >= |a|
    ensures outstanding == [] ==>
      (TwoEvents(a, b, outstanding) == Delivered(w, outstanding) <==> Parse(START, a) == w)
    ensures outstanding != [] && Parse(START, a) != w ==>
      TwoEvents(a, b, outstanding) != Delivered(w, outstanding)
    ensures outstanding != [] && |b| == 1 ==> TwoEvents(a, b, outstanding) != Delivered(w, outstanding)
  {
    hide Parse, Loop;
    GoodAtEnd(START, a, outstanding);
    if outstanding != [] {
      assert [] + b == b;
      var r2 := Loop(START, b, outstanding[1..]);
      assert ([Delivery(outstanding[0], Parse(START, a))] + r2.delivered)[0].reply == Parse(START, a);
      if |b| == 1 {
        OneByteFails(b, outstanding[1..]);
      }
    }
  }

  lemma OneByteFails(b: seq<char>, outstanding: seq<nat>)
    requires |b| == 1
    ensures Loop(START, b, outstanding).outcome.Failed? && Loop(START, b, outstanding).delivered == []
  {
    hide StatusStage;
    var f := Find(b, 0, 1, ' ');
    assert |b[0..f]| <= 1;
  }

  /** It waits for more: then the second event goes on where the first one stopped. */
  lemma WaitingFirst(a: seq<char>, b: seq<char>, outstanding: seq<nat>)
    requires a != [] && Parse(START, a).bytes >= |a|
    requires Parse(START, a).progress.ParsingHeaders? || Parse(START, a).progress.ParsingBody?
    ensures TwoEvents(a, b, outstanding) == Loop(Parse(START, a), b, outstanding)
  {
    hide Parse;
    var st := Parse(START, a);
    assert Drop(a, st.bytes) == [] && [] + b == b;
    assert Loop(st, [], outstanding) == Result(Emptied, [], st, [], outstanding);
    var r2 := Loop(st, b, outstanding);
    assert [] + r2.delivered == r2.delivered;
  }

  // ---------- the cuts ----------

  /** In front of the last byte of the head, or of a line before it, the loop takes a body for begun. */
  lemma BodyTooEarly(st: Parser, b: seq<char>, outstanding: seq<nat>, n: nat, w: Parser)
    requires st.progress.ParsingBody? && LENGTH in st.headers && Stoi(st.headers[LENGTH]) == Some(n)
    requires 0 < n < |b| && (|b| - n > 1 ==> w.bytes != st.bytes + n)
    ensures Loop(st, b, outstanding) != Delivered(w, outstanding)
  {
    hide Stoi, Loop;
    var st1, rest := st.(progress := Good, bytes := st.bytes + n, content := st.content + b[0..n]), b[n..];
    assert Parse(st, b) == st1;
    GoodLoop(st, b, outstanding);
    if outstanding != [] {
      if |rest| == 1 {
        OneByteFails(rest, outstanding[1..]);
      }
      var d, r2 := Delivery(outstanding[0], st1), Loop(START, rest, outstanding[1..]);
      assert ([d] + r2.delivered)[0] == d;
    }
  }

  lemma GoodLoop(st: Parser, s: seq<char>, outstanding: seq<nat>)
    requires s != [] && Parse(st, s).progress.Good? && st.bytes <= Parse(st, s).bytes < st.bytes + |s|
    ensures var st1 := Parse(st, s);
      var rest := s[st1.bytes - st.bytes..];
      Loop(st, s, outstanding) ==
        if outstanding == [] then Result(NoRequest, [], st1, rest, [])
        else Deliver(Delivery(outstanding[0], st1), Loop(START, rest, outstanding[1..]))
  {
    hide Parse;
  }

  /** Whether the fields behind which k stands include the length: there is only one number of them. */
  lemma HarmlessInHead(r: Reply, hs: seq<Header>, k: nat, outstanding: seq<nat>, j: nat, off: nat)
    requires j <= |hs| && k == BehindStatus(r.status).bytes + |PrintHeaders(hs[..j])| + off
    requires off < if j < |hs| then |PrintHeader(hs[j])| else 2
    ensures k < |ToString(r, hs)| - |r.content|
    ensures k == |ToString(r, hs)| - |r.content| - 1 <==> j == |hs| && off == 1
    ensures HarmlessCut(r, hs, k, outstanding) <==>
      if r.content == [] then outstanding == [] && j == |hs| && off == 1
      else off == 0 && LENGTH in Enter(map[], hs[..j])
  {
    hide StatusNumber, StatusString, At, ToString, PrintHeaders, PrintHeader, Enter;
    ReplyParts(r, hs);
    assert hs[..|hs|] == hs;
    if j < |hs| {
      FieldsTakeRoom(hs, j, |hs|);
    }
    forall i | 0 <= i <= |hs| && BehindLength(r, hs, k, i) ensures i == j && off == 0 {
      LandsOnce(hs, j, off, i);
    }
    if off == 0 && LENGTH in Enter(map[], hs[..j]) {
      assert BehindLength(r, hs, k, j);
    }
  }

  lemma NotHarmless(r: Reply, hs: seq<Header>, k: nat, outstanding: seq<nat>)
    requires k < |ToString(r, hs)|
    requires k < BehindStatus(r.status).bytes || |ToString(r, hs)| - |r.content| < k
    ensures !HarmlessCut(r, hs, k, outstanding)
  {
    hide StatusNumber, StatusString, At, ToString, PrintHeaders, Enter;
    ReplyParts(r, hs);
    forall j | 0 <= j <= |hs| ensures !BehindLength(r, hs, k, j) {
      assert hs[..|hs|] == hs;
      if j < |hs| {
        FieldsTakeRoom(hs, j, |hs|);
      }
    }
  }

  lemma CutInStatus(r: Reply, hs: seq<Header>, k: nat, outstanding: seq<nat>, w: Parser)
    requires WellFormed(r) && Lists(hs, WithLength(r)) && k <= |ToString(r, hs)|
    requires 0 < k < BehindStatus(r.status).bytes
    ensures TwoEvents(ToString(r, hs)[..k], ToString(r, hs)[k..], outstanding) != Delivered(w, outstanding)
  {
    hide Parse, ToString, Lists, WithLength, Known, StatusNumber, HeadersOk, Framed, TwoEvents, Delivered, Loop;
    var a, b := ToString(r, hs)[..k], ToString(r, hs)[k..];
    LineCut(r, hs, k);
    if 9 < k < 9 + |StatusNumber(r.status)| {
      CutReplySpinsIff(r, hs, k, outstanding);
      SpinningFirst(a, b, outstanding, w);
    } else {
      FailedFirst(a, b, outstanding, w);
    }
  }

  /** Behind a field, with the length known and a content to come, the second event finishes the reply. */
  lemma ResumesBehindField(r: Reply, hs: seq<Header>, k: nat, j: nat, outstanding: seq<nat>)
    requires WellFormed(r) && Lists(hs, WithLength(r)) && j <= |hs| && 0 < k < |ToString(r, hs)|
    requires k == BehindStatus(r.status).bytes + |PrintHeaders(hs[..j])|
    requires Parse(START, ToString(r, hs)[..k]) == AtCut(r, hs, k, j, 0)
    ensures TwoEvents(ToString(r, hs)[..k], ToString(r, hs)[k..], outstanding)
         == Delivered(Parsed(r, |ToString(r, hs)|), outstanding)
  {
    hide StatusNumber, StatusString, At, ToString, Known, Parse, HeadersOk, Lists, WithLength, PrintHeaders, Starts,
      Framed, Loop, TwoEvents, Delivered, HeaderStage, Enter;
    var h := ToString(r, hs);
    var a, b, st := h[..k], h[k..], AtCut(r, hs, k, j, 0);
    WholeReply(r, hs, outstanding);
    ReplyParts(r, hs);
    StatusLinePrinted(r, hs, []);
    assert h + [] == h;
    FieldsAt(h, BehindStatus(r.status).bytes, hs, j);
    HeadersListedOk(hs, WithLength(r));
    LinesRead(BehindStatus(r.status), h, BehindStatus(r.status).bytes, hs[..j]);
    assert a + b == h;
    HeadersShift(st, a, b, 0);
    ParseOfHeaders(st, b);
    WaitingFirst(a, b, outstanding);
    GoodAtEnd(st, b, outstanding);
  }

  lemma ParseOfHeaders(st: Parser, s: seq<char>)
    requires st.progress.ParsingHeaders?
    ensures Parse(st, s) == HeaderStage(st, s, 0)
  {
  }

  lemma FieldsAt(h: seq<char>, p: nat, hs: seq<Header>, j: nat)
    requires At(h, p, PrintHeaders(hs) + "\r\n") && j <= |hs|
    ensures At(h, p, PrintHeaders(hs[..j]))
  {
    hide At, PrintHeaders, PrintHeader;
    AtSplit(h, p, PrintHeaders(hs), "\r\n");
    if j < |hs| {
      PrintHeadersSplit(hs, j);
      AtSplit(h, p, PrintHeaders(hs[..j]), PrintHeader(hs[j]) + PrintHeaders(hs[j + 1..]));
    } else {
      assert hs[..j] == hs;
    }
  }

  /** A cut in the header section. */
  lemma CutInHead(r: Reply, hs: seq<Header>, k: nat, outstanding: seq<nat>)
    requires WellFormed(r) && Lists(hs, WithLength(r))
    requires BehindStatus(r.status).bytes <= k < |ToString(r, hs)| - |r.content|
    ensures TwoEvents(ToString(r, hs)[..k], ToString(r, hs)[k..], outstanding)
              == Delivered(Parsed(r, |ToString(r, hs)|), outstanding)
            <==> HarmlessCut(r, hs, k, outstanding)
  {
    hide StatusNumber, StatusString, ToString, Known, Parse, HeadersOk, Lists, WithLength, PrintHeaders, PrintHeader,
      Framed, Loop, TwoEvents, Delivered, Enter, HarmlessCut, Stoi;
    var h, w := ToString(r, hs), Parsed(r, |ToString(r, hs)|);
    var a, b := h[..k], h[k..];
    var j, off := HeadCut(r, hs, k);
    HarmlessInHead(r, hs, k, outstanding, j, off);
    if off >= 2 || LENGTH !in Enter(map[], hs[..j]) {
      FailedFirst(a, b, outstanding, w);
      LengthIsThere(r, hs);
    } else {
      LengthField(r);
      EnteredSoFar(hs, WithLength(r), j, LENGTH);
      var cut := AtCut(r, hs, k, j, off);
      if r.content == [] {
        GoodFirst(a, b, outstanding, w);
        EnterRebuilds(hs, WithLength(r));
        assert hs[..|hs|] == hs;
      } else if off == 0 {
        ResumesBehindField(r, hs, k, j, outstanding);
      } else {
        WaitingFirst(a, b, outstanding);
        BodyTooEarly(cut, b, outstanding, |r.content|, w);
      }
    }
  }

  lemma LengthIsThere(r: Reply, hs: seq<Header>)
    requires WellFormed(r) && Lists(hs, WithLength(r))
    ensures LENGTH in Enter(map[], hs[..|hs|])
  {
    hide Lists, WithLength, WellFormed;
    LengthField(r);
    EnterRebuilds(hs, WithLength(r));
    assert hs[..|hs|] == hs;
  }

  /** A cut at the end of the head. */
  lemma CutAtContent(r: Reply, hs: seq<Header>, outstanding: seq<nat>)
    requires WellFormed(r) && Lists(hs, WithLength(r)) && r.content != []
    ensures var h := ToString(r, hs);
      |h| >= |r.content| &&
      var k := |h| - |r.content|;
      TwoEvents(h[..k], h[k..], outstanding) == Delivered(Parsed(r, |h|), outstanding)
  {
    hide StatusNumber, StatusString, At, ToString, Known, Parse, HeadersOk, Lists, WithLength, PrintHeaders,
      Framed, Loop, TwoEvents, Delivered, Stoi;
    var h := ToString(r, hs);
    ReplyParts(r, hs);
    var k := |h| - |r.content|;
    var a, b, st := h[..k], h[k..], Parser(ParsingBody, k, r.status, [], WithLength(r));
    AtSlice(h, k, r.content);
    assert b == r.content;
    LengthField(r);
    BodyCut(r, hs, k);
    NoBodyYet(st, a, k, |r.content|);
    WaitingFirst(a, b, outstanding);
    ContentRead(st, b, |b|);
    assert b[0..|b|] == b;
    GoodAtEnd(st, b, outstanding);
  }

  /** A well-formed reply that arrives in two events is delivered like one that arrives at once iff the cut is
      harmless. */
  lemma SplitDeliveredIff(r: Reply, hs: seq<Header>, k: nat, outstanding: seq<nat>)
    requires WellFormed(r) && Lists(hs, WithLength(r)) && 0 < k < |ToString(r, hs)|
    ensures var h := ToString(r, hs);
      TwoEvents(h[..k], h[k..], outstanding) == Loop(START, h, outstanding) <==> HarmlessCut(r, hs, k, outstanding)
  {
    hide ToString, WellFormed, Lists, WithLength, TwoEvents, Loop, HarmlessCut, Parse, Delivered, StatusNumber,
      StatusString;
    var h, w := ToString(r, hs), Parsed(r, |ToString(r, hs)|);
    WholeReply(r, hs, outstanding);
    if k < BehindStatus(r.status).bytes {
      CutInStatus(r, hs, k, outstanding, w);
      NotHarmless(r, hs, k, outstanding);
    } else if k < |h| - |r.content| {
      CutInHead(r, hs, k, outstanding);
    } else if k == |h| - |r.content| {
      CutAtContent(r, hs, outstanding);
      AtContentIsHarmless(r, hs, outstanding);
    } else {
      BodySpinsIff(r, hs, k, outstanding);
      SpinningFirst(h[..k], h[k..], outstanding, w);
      NotHarmless(r, hs, k, outstanding);
    }
  }

  lemma AtContentIsHarmless(r: Reply, hs: seq<Header>, outstanding: seq<nat>)
    requires r.content != [] && |ToString(r, hs)| >= |r.content|
    ensures HarmlessCut(r, hs, |ToString(r, hs)| - |r.content|, outstanding)
  {
    hide ToString;
  }

  /** The worst of the other cuts is the one in front of the last byte of a head with a content: the handler gets
      a content that is shifted by one, the newline first, and the byte left over fails as a reply of its own. */
  lemma CutGivesShiftedContent(r: Reply, hs: seq<Header>, outstanding: seq<nat>)
    requires WellFormed(r) && Lists(hs, WithLength(r)) && r.content != [] && outstanding != []
    ensures var h := ToString(r, hs);
      |h| > |r.content| &&
      var k := |h| - |r.content| - 1;
      var res := TwoEvents(h[..k], h[k..], outstanding);
      res.outcome.Failed? && res.delivered ==
        [Delivery(outstanding[0], Parsed(r, |h|).(content := "\n" + r.content[..|r.content| - 1]))]
  {
    hide StatusNumber, StatusString, ToString, Known, Parse, HeadersOk, Lists, WithLength, PrintHeaders, PrintHeader,
      Framed, Loop, TwoEvents, Enter, HarmlessCut, Stoi, At;
    var h, c := ToString(r, hs), r.content;
    ReplyParts(r, hs);
    var k := |h| - |c| - 1;
    var a, b := h[..k], h[k..];
    LastHeadByte(h, BehindStatus(r.status).bytes, PrintHeaders(hs), c);
    var j, off := HeadCut(r, hs, k);
    HarmlessInHead(r, hs, k, outstanding, j, off);
    LengthIsThere(r, hs);
    LengthField(r);
    EnterRebuilds(hs, WithLength(r));
    assert hs[..|hs|] == hs;
    var st := AtCut(r, hs, k, j, off);
    WaitingFirst(a, b, outstanding);
    ContentRead(st, b, |c|);
    assert ("\n" + c)[0..|c|] == "\n" + c[..|c| - 1];
    GoodLoop(st, b, outstanding);
    var rest := b[|c|..];
    OneByteFails(rest, outstanding[1..]);
  }

  lemma LastHeadByte(h: seq<char>, p: nat, headers: seq<char>, c: seq<char>)
    requires At(h, p, headers + "\r\n") && At(h, p + |headers| + 2, c) && |h| == p + |headers| + 2 + |c|
    ensures h[|h| - |c| - 1..] == "\n" + c
  {
    hide At;
    AtSplit(h, p, headers, "\r\n");
    AtIndex(h, p + |headers|, "\r\n", 1);
    AtSlice(h, p + |headers| + 2, c);
  }

  lemma ContentRead(st: Parser, s: seq<char>, n: nat)
    requires st.progress.ParsingBody? && st.content == [] && 0 < n <= |s|
    requires LENGTH in st.headers && Stoi(st.headers[LENGTH]) == Some(n)
    ensures Parse(st, s) == st.(progress := Good, bytes := st.bytes + n, content := s[0..n])
  {
    hide Stoi;
    assert [] + s[0..n] == s[0..n];
  }
}
