/** A printed reply that arrives incompletely at the client (src/http/HttpClient.cpp): exactly when the read
    loop never ends. */
module ReplyCuts {
  import opened Wrappers
  import opened HttpText
  import opened HttpReply
  import opened HttpClients
  import opened Buffers

  /** In the body stage the loop spins at once, without end, iff some but not all of the content is there. */
  lemma IncompleteContentSpins(st: Parser, s: seq<char>, outstanding: seq<nat>, n: int)
    requires st.progress.ParsingBody? && LENGTH in st.headers && Stoi(st.headers[LENGTH]) == Some(n)
    ensures Loop(st, s, outstanding) == Result(Spinning, [], st, s, outstanding) <==> 0 < |s| < n
  {
    hide Stoi, VersionStage, StatusStage, StatusStringStage, HeaderStage;
    if 0 < |s| < n {
      assert s[0..] == s;
    }
  }

  // ---------- a cut in the status line ----------

  lemma VersionCut(s: seq<char>)
    requires Starts(s, 0, "HTTP/1.1") && |s| <= 8
    ensures var st := VersionStage(START.(progress := ParsingVersion), s);
      st.progress.InvalidVersion? || st.progress.Undefined?
  {
    forall i | 0 <= i < |s| ensures s[i] != ' ' {
      assert s[0 + i] == "HTTP/1.1"[i];
    }
    FindIs(s, 0, |s|, ' ', |s|);
    assert s[0..|s|] == s;
  }

  /** A proper prefix of a known status number is a number, if it is not empty, but no known status. */
  lemma NumberCut(status: nat, j: nat)
    requires Known(status) && j < |StatusNumber(status)|
    ensures |StatusNumber(status)| == 3
    ensures var v := Stoi(StatusNumber(status)[..j]);
      if j == 0 then v == None else v.Some? && v.value >= 0 && !Known(v.value)
  {
    hide Stoi;
    var num := StatusNumber(status);
    assert num == ToDecimal(status / 10) + [(48 + status % 10) as char];
    assert ToDecimal(status / 10) == ToDecimal(status / 100) + [(48 + status / 10 % 10) as char];
    StoiOfNothing();
    StoiInverts(status / 10);
    StoiInverts(status / 100);
    assert num[..2] == ToDecimal(status / 10) && num[..1] == ToDecimal(status / 100) && num[..0] == [];
  }

  /** The status number, cut at the end of the input. */
  lemma StatusCut(st: Parser, s: seq<char>, p: nat, status: nat)
    requires Known(status) && Starts(s, p, StatusNumber(status)) && p <= |s| <= p + |StatusNumber(status)|
    ensures if p < |s| < p + |StatusNumber(status)| then StatusStage(st, s, p) == st
            else StatusStage(st, s, p).progress.Undefined?
  {
    hide Stoi, Known, StatusNumber;
    var num, j := StatusNumber(status), |s| - p;
    DigitsOnly(status);
    forall i | p <= i < |s| ensures s[i] != ' ' {
      assert s[p + (i - p)] == num[i - p];
    }
    FindIs(s, p, |s|, ' ', |s|);
    assert s[p..|s|] == num[..j];
    if j < |num| {
      NumberCut(status, j);
    } else {
      assert num[..j] == num;
      KnownFits(status);
      NumberReads(status);
    }
  }

  lemma DigitsOnly(status: nat)
    ensures forall i | 0 <= i < |StatusNumber(status)| :: IsDigit(StatusNumber(status)[i])
  {
  }

  lemma NumberReads(status: nat)
    requires Known(status)
    ensures Stoi(StatusNumber(status)) == Some(status)
  {
    hide Stoi, ToDecimal, Known;
    KnownFits(status);
    StoiInverts(status);
  }

  lemma StatusStringCut(st: Parser, s: seq<char>, p: nat, status: nat)
    requires Starts(s, p, StatusString(status)) && Starts(s, p + |StatusString(status)|, "\r\n")
    requires 0 < p <= |s| < p + |StatusString(status)| + 2
    ensures StatusStringStage(st, s, p).progress.Undefined?
  {
    hide StatusString;
    var str := StatusString(status);
    NoNewlineBelow400(status);
    NoNewlineFrom400(status);
    forall i | p <= i < |s| ensures s[i] != '\n' {
      if i < p + |str| {
        assert s[p + (i - p)] == str[i - p];
      } else {
        assert s[p + |str| + 0] == "\r\n"[0];
      }
    }
    FindIs(s, p, |s|, '\n', |s|);
  }

  // ---------- a cut in the header section ----------

  lemma HeadersCut(st: Parser, s: seq<char>, p: nat, hs: seq<Header>, j: nat, off: nat)
    requires Starts(s, p, PrintHeaders(hs) + "\r\n")
    requires forall i | 0 <= i < |hs| :: HeaderOk(hs[i])
    requires j <= |hs| && |s| == p + |PrintHeaders(hs[..j])| + off
    requires off < if j < |hs| then |PrintHeader(hs[j])| else 2
    ensures var r := HeaderStage(st, s, p);
      var st1 := st.(headers := Enter(st.headers, hs[..j]), bytes := st.bytes + |s| - p);
      if off == 0 then r == BodyStage(st1, s, |s|)
      else if off == 1 then r == BodyStage(st1.(progress := ParsingBody, bytes := st1.bytes + 1), s, |s| + 1)
      else r.progress.Undefined?
  {
    hide NextLine, PrintHeader, HeaderOk, BodyStage, PrintHeaders, At, Starts, HeaderStage;
    var q := p + |PrintHeaders(hs[..j])|;
    var st1 := st.(headers := Enter(st.headers, hs[..j]), bytes := st.bytes + |PrintHeaders(hs[..j])|);
    FieldsStart(s, p, hs, j);
    StartsWhole(s, p, PrintHeaders(hs[..j]));
    LinesRead(st, s, p, hs[..j]);
    if off == 0 {
      AtEndFalls(st1, s, q);
    } else {
      if j < |hs| {
        NextLineCut(s, q, hs[j]);
      } else {
        BlankCut(s, q);
      }
      if off == 1 {
        BlankEnds(st1, s, q);
      } else {
        BeyondFails(st1, s, q);
      }
    }
  }

  lemma FieldsStart(s: seq<char>, p: nat, hs: seq<Header>, j: nat)
    requires Starts(s, p, PrintHeaders(hs) + "\r\n") && j <= |hs|
    ensures Starts(s, p, PrintHeaders(hs[..j]))
    ensures Starts(s, p + |PrintHeaders(hs[..j])|, if j < |hs| then PrintHeader(hs[j]) else "\r\n")
  {
    hide Starts, PrintHeader, PrintHeaders;
    StartsSplit(s, p, PrintHeaders(hs), "\r\n");
    if j < |hs| {
      PrintHeadersSplit(hs, j);
      StartsSplit(s, p, PrintHeaders(hs[..j]), PrintHeader(hs[j]) + PrintHeaders(hs[j + 1..]));
      StartsSplit(s, p + |PrintHeaders(hs[..j])|, PrintHeader(hs[j]), PrintHeaders(hs[j + 1..]));
    } else {
      assert hs[..j] == hs;
    }
  }

  lemma AtEndFalls(st: Parser, s: seq<char>, p: nat)
    requires p == |s|
    ensures HeaderStage(st, s, p) == BodyStage(st, s, p)
  {
    hide BodyStage;
  }

  lemma BeyondFails(st: Parser, s: seq<char>, p: nat)
    requires p <= |s|
    requires NextLine(s, p).Broken? || (NextLine(s, p).Field? && NextLine(s, p).next == |s| + 1)
    ensures HeaderStage(st, s, p).progress.Undefined?
  {
    hide NextLine, BodyStage;
  }

  /** In the body stage without any content. */
  lemma NoBodyYet(st: Parser, s: seq<char>, p: nat, n: nat)
    requires p >= |s| && (LENGTH in st.headers ==> Stoi(st.headers[LENGTH]) == Some(n))
    ensures BodyStage(st, s, p) ==
      if LENGTH !in st.headers then st.(progress := Undefined) else if n == 0 then st.(progress := Good) else st
  {
    hide Stoi;
    StoiOfNothing();
  }

  /** The length field of a well-formed reply is the length of its content. */
  lemma LengthField(r: Reply)
    requires WellFormed(r)
    ensures LENGTH in WithLength(r) && Stoi(WithLength(r)[LENGTH]) == Some(|r.content|)
  {
    hide Stoi, ToDecimal, HeadersOk, Known;
    StoiInverts(|r.content|);
  }

  // ---------- the whole reply ----------

  /** Where the parts of a printed reply stand, without anything behind it. */
  lemma ReplyParts(r: Reply, hs: seq<Header>)
    ensures var s, n, w := ToString(r, hs), |StatusNumber(r.status)|, |StatusString(r.status)|;
      && At(s, 0, "HTTP/1.1") && At(s, 8, " ")
      && At(s, 9, StatusNumber(r.status)) && At(s, 9 + n, " ")
      && At(s, 10 + n, StatusString(r.status)) && At(s, 10 + n + w, "\r\n")
      && At(s, 12 + n + w, PrintHeaders(hs) + "\r\n")
      && At(s, 14 + n + w + |PrintHeaders(hs)|, r.content)
      && |s| == 14 + n + w + |PrintHeaders(hs)| + |r.content|
  {
    hide At, StatusNumber, StatusString, PrintHeaders, ToString;
    ReplyLayout(r, hs, []);
    assert ToString(r, hs) + [] == ToString(r, hs);
  }

  /** The parser on the first k bytes, up to the end of the status line. */
  lemma LineCut(r: Reply, hs: seq<Header>, k: nat)
    requires Known(r.status) && k <= |ToString(r, hs)|
    ensures var s, st := ToString(r, hs)[..k], Parse(START, ToString(r, hs)[..k]);
      if 9 < k < 9 + |StatusNumber(r.status)| then st == START.(progress := ParsingStatus, bytes := 9)
      else if k < BehindStatus(r.status).bytes then st.progress.Undefined? || IsError(st)
      else st == HeaderStage(BehindStatus(r.status), s, BehindStatus(r.status).bytes)
  {
    hide HeaderStage, StatusStage, StatusStringStage, VersionStage, StatusNumber, StatusString, At, ToString,
      PrintHeaders, Known, Starts;
    var h, n, w := ToString(r, hs), |StatusNumber(r.status)|, |StatusString(r.status)|;
    var s := h[..k];
    ReplyParts(r, hs);
    StartsCut(h, 0, "HTTP/1.1", k);
    if k <= 8 {
      VersionCut(s);
      return;
    }
    StartsWhole(s, 0, "HTTP/1.1");
    StartsCut(h, 8, " ", k);
    StartsWhole(s, 8, " ");
    VersionPrinted(START.(progress := ParsingVersion), s);
    var st1 := START.(progress := ParsingStatus, bytes := 9);
    StartsCut(h, 9, StatusNumber(r.status), k);
    if k <= 9 + n {
      StatusCut(st1, s, 9, r.status);
      return;
    }
    StartsWhole(s, 9, StatusNumber(r.status));
    StartsCut(h, 9 + n, " ", k);
    StartsWhole(s, 9 + n, " ");
    StatusPrinted(st1, s, 9, r.status);
    var st2 := st1.(progress := ParsingStatusString, status := r.status, bytes := 10 + n);
    StartsCut(h, 10 + n, StatusString(r.status), k);
    StartsCut(h, 10 + n + w, "\r\n", k);
    if k < 12 + n + w {
      StatusStringCut(st2, s, 10 + n, r.status);
    } else {
      StartsWhole(s, 10 + n, StatusString(r.status));
      StartsWhole(s, 10 + n + w, "\r\n");
      StatusStringPrinted(st2, s, 10 + n, r.status);
    }
  }

  /** The parser of a reply cut at k in its header section, behind j whole fields and at most one character. */
  function AtCut(r: Reply, hs: seq<Header>, k: nat, j: nat, off: nat): Parser
    requires j <= |hs|
  {
    Parser(if off == 0 then ParsingHeaders else ParsingBody, k + off, r.status, [], Enter(map[], hs[..j]))
  }

  /** What it makes of the cut: without the length field it throws, with an empty content it is done, too early. */
  ghost predicate CutResult(r: Reply, hs: seq<Header>, k: nat, j: nat, off: nat, st: Parser)
    requires j <= |hs|
  {
    if off >= 2 then st.progress.Undefined?
    else
      var cut := AtCut(r, hs, k, j, off);
      st == if LENGTH !in cut.headers then cut.(progress := Undefined)
            else if r.content == [] then cut.(progress := Good) else cut
  }

  /** The parser on the first k bytes, when the cut lies in the header section. */
  lemma HeadCut(r: Reply, hs: seq<Header>, k: nat) returns (j: nat, off: nat)
    requires WellFormed(r) && Lists(hs, WithLength(r))
    requires BehindStatus(r.status).bytes <= k < |ToString(r, hs)| - |r.content|
    ensures j <= |hs| && k == BehindStatus(r.status).bytes + |PrintHeaders(hs[..j])| + off
    ensures off < if j < |hs| then |PrintHeader(hs[j])| else 2
    ensures CutResult(r, hs, k, j, off, Parse(START, ToString(r, hs)[..k]))
  {
    hide StatusNumber, StatusString, At, ToString, Known, BodyStage, HeaderStage, Parse, HeadersOk, Lists,
      WithLength, PrintHeaders, PrintHeader, Starts, Framed, Stoi;
    var h, s, st := ToString(r, hs), ToString(r, hs)[..k], BehindStatus(r.status);
    ReplyParts(r, hs);
    LineCut(r, hs, k);
    StartsCut(h, st.bytes, PrintHeaders(hs) + "\r\n", k);
    HeadersListedOk(hs, WithLength(r));
    j, off := Landing(hs, k - st.bytes);
    HeadersCut(st, s, st.bytes, hs, j, off);
    if off <= 1 {
      var cut := AtCut(r, hs, k, j, off);
      LengthField(r);
      if LENGTH in cut.headers {
        EnteredSoFar(hs, WithLength(r), j, LENGTH);
      }
      NoBodyYet(cut, s, k + off, |r.content|);
    }
  }

  /** After a parse that fails, or that has consumed all there is, the loop ends. */
  lemma ConsumedEnds(s: seq<char>, outstanding: seq<nat>)
    requires s != []
    requires var st := Parse(START, s); st.progress.Undefined? || IsError(st) || st.bytes >= |s|
    ensures !Loop(START, s, outstanding).outcome.Spinning?
  {
    hide Parse;
  }

  lemma NumberSpins(status: nat, j: nat, s: seq<char>, outstanding: seq<nat>)
    requires Known(status) && 0 < j < |StatusNumber(status)| && |s| == 9 + j
    requires s[9..] == StatusNumber(status)[..j]
    requires Parse(START, s) == START.(progress := ParsingStatus, bytes := 9)
    ensures Loop(START, s, outstanding).outcome.Spinning?
  {
    hide Parse, StatusNumber, StatusStage, Known;
    var st, rest := Parse(START, s), s[9..];
    assert Drop(s, 9) == rest;
    StatusCut(st, rest, 0, status);
    StaysInStatus(st, rest);
  }

  lemma StaysInStatus(st: Parser, s: seq<char>)
    requires st.progress.ParsingStatus? && StatusStage(st, s, 0) == st
    ensures Parse(st, s) == st
  {
  }

  /** The parser on the first k bytes, when the head is complete. */
  lemma BodyCut(r: Reply, hs: seq<Header>, k: nat)
    requires WellFormed(r) && Lists(hs, WithLength(r))
    requires |ToString(r, hs)| - |r.content| <= k <= |ToString(r, hs)|
    ensures var p := |ToString(r, hs)| - |r.content|;
      p > 0 &&
      var st := Parser(ParsingBody, p, r.status, [], WithLength(r));
      Parse(START, ToString(r, hs)[..k]) == BodyStage(st, ToString(r, hs)[..k], p)
  {
    hide StatusNumber, StatusString, At, ToString, Known, BodyStage, HeaderStage, Parse, HeadersOk, Lists,
      WithLength, PrintHeaders, Starts, Framed;
    var h, s := ToString(r, hs), ToString(r, hs)[..k];
    var st := BehindStatus(r.status);
    ReplyParts(r, hs);
    LineCut(r, hs, k);
    StartsCut(h, st.bytes, PrintHeaders(hs) + "\r\n", k);
    StartsWhole(s, st.bytes, PrintHeaders(hs) + "\r\n");
    HeadersListedOk(hs, WithLength(r));
    HeadersPrinted(st, s, st.bytes, hs);
    EnterRebuilds(hs, WithLength(r));
  }

  lemma BodySpinsIff(r: Reply, hs: seq<Header>, k: nat, outstanding: seq<nat>)
    requires WellFormed(r) && Lists(hs, WithLength(r))
    requires |ToString(r, hs)| - |r.content| <= k <= |ToString(r, hs)|
    ensures Loop(START, ToString(r, hs)[..k], outstanding).outcome.Spinning? <==>
            |ToString(r, hs)| - |r.content| < k < |ToString(r, hs)|
  {
    hide ToString, Lists, Known, HeadersOk, Stoi, ToDecimal, Parse;
    var p, s := |ToString(r, hs)| - |r.content|, ToString(r, hs)[..k];
    BodyCut(r, hs, k);
    var st := Parser(ParsingBody, p, r.status, [], WithLength(r));
    StoiInverts(|r.content|);
    if k < |ToString(r, hs)| {
      assert Drop(s, p) == s[p..];
      IncompleteContentSpins(st, s[p..], outstanding, |r.content|);
    } else {
      assert Drop(s, |s|) == [];
    }
  }

  /** Of a well-formed reply that has arrived up to its k-th byte, the loop never ends iff the cut lies
      inside the content, or inside the status number. */
  lemma CutReplySpinsIff(r: Reply, hs: seq<Header>, k: nat, outstanding: seq<nat>)
    requires WellFormed(r) && Lists(hs, WithLength(r)) && k <= |ToString(r, hs)|
    ensures Loop(START, ToString(r, hs)[..k], outstanding).outcome.Spinning? <==>
      || |ToString(r, hs)| - |r.content| < k < |ToString(r, hs)|
      || 9 < k < 9 + |StatusNumber(r.status)|
  {
    hide ToString, Lists, HeadersOk, Parse, Known, StatusNumber, StatusString, PrintHeaders, HeaderStage, At, Starts,
      Framed, Loop, WithLength;
    var h, s, st := ToString(r, hs), ToString(r, hs)[..k], BehindStatus(r.status);
    ReplyParts(r, hs);
    if k >= |h| - |r.content| {
      BodySpinsIff(r, hs, k, outstanding);
      return;
    }
    LineCut(r, hs, k);
    if 9 < k < 9 + |StatusNumber(r.status)| {
      AtPart(h, 9, StatusNumber(r.status), k);
      NumberSpins(r.status, k - 9, s, outstanding);
    } else if k == 0 {
      EmptyEnds(outstanding);
    } else {
      if k >= st.bytes {
        var j, off := HeadCut(r, hs, k);
      }
      ConsumedEnds(s, outstanding);
    }
  }

  lemma AtPart(h: seq<char>, p: nat, part: seq<char>, k: nat)
    requires At(h, p, part) && p <= k <= p + |part|
    ensures h[..k][p..] == part[..k - p]
  {
  }

  lemma EmptyEnds(outstanding: seq<nat>)
    ensures !Loop(START, [], outstanding).outcome.Spinning?
  {
  }

  // ---------- an unknown status ----------

  lemma {:induction false} HeaderStagePhase(st: Parser, s: seq<char>, p: nat)
    requires st.progress.ParsingHeaders? || st.progress.ParsingBody?
    ensures var r := HeaderStage(st, s, p).progress;
      r.ParsingHeaders? || r.ParsingBody? || r.Good? || r.Undefined?
    decreases |s| + 1 - p
  {
    hide NextLine, Stoi;
    if p <= |s| && NextLine(s, p).Field? {
      var h, next := NextLine(s, p).header, NextLine(s, p).next;
      HeaderStagePhase(st.(headers := st.headers[h.key := h.value], bytes := st.bytes + next - p), s, next);
    }
  }

  lemma LaterPhase(st: Parser, s: seq<char>)
    requires st.progress.ParsingHeaders? || st.progress.ParsingBody?
    ensures var r := Parse(st, s).progress;
      r.ParsingHeaders? || r.ParsingBody? || r.Good? || r.Undefined?
  {
    hide HeaderStage, Stoi;
    if st.progress.ParsingHeaders? {
      HeaderStagePhase(st, s, 0);
    }
  }

  /** Behind the status line, the loop does not come back to the status before a reply is complete. */
  lemma {:induction false} StatusIsPast(st: Parser, buf: seq<char>, outstanding: seq<nat>)
    requires st.progress.ParsingHeaders? || st.progress.ParsingBody?
    ensures var r := Loop(st, buf, outstanding); r.delivered == [] ==> !r.parser.progress.ParsingStatus?
    decreases |buf|
  {
    hide Parse;
    if buf != [] {
      var st1 := Parse(st, buf);
      var n := if st1.bytes >= st.bytes then st1.bytes - st.bytes else 0;
      LaterPhase(st, buf);
      if !st1.progress.Good? && !st1.progress.Undefined? && n != 0 {
        StatusIsPast(st1, Drop(buf, n), outstanding);
      }
    }
  }

  lemma StatusStringPhase(st: Parser, s: seq<char>, p: nat)
    requires 0 < p
    ensures var r := StatusStringStage(st, s, p).progress;
      r.ParsingHeaders? || r.ParsingBody? || r.Good? || r.Undefined?
  {
    hide HeaderStage;
    if p <= |s| {
      var f := Find(s, p, |s|, '\n');
      HeaderStagePhase(st.(progress := ParsingHeaders, bytes := st.bytes + f + 1 - p), s, f + 1);
    }
  }

  /** A numeric status between its spaces: the parser stays there iff the number fits an int and is unknown. */
  lemma NumericStatus(s: seq<char>, n: nat)
    requires At(s, 0, "HTTP/1.1") && At(s, 8, " ") && At(s, 9, ToDecimal(n)) && At(s, 9 + |ToDecimal(n)|, " ")
    ensures var st := Parse(START, s);
      if n <= INT_MAX && !Known(n) then st == START.(progress := ParsingStatus, bytes := 9)
      else st.progress.ParsingHeaders? || st.progress.ParsingBody? || st.progress.Good? || st.progress.Undefined?
  {
    hide StatusStringStage, StatusStage, VersionStage, Stoi, ToDecimal, Known;
    var st1 := START.(progress := ParsingStatus, bytes := 9);
    VersionPrinted(START.(progress := ParsingVersion), s);
    StatusRead(st1, s, 9, n);
    StatusStringPhase(
      st1.(progress := ParsingStatusString, status := n, bytes := 10 + |ToDecimal(n)|), s, 10 + |ToDecimal(n)|);
  }

  lemma StatusNests(num: seq<char>, tail: seq<char>)
    ensures "HTTP/1.1 " + num + " " + tail == "HTTP/1.1" + (" " + (num + (" " + tail)))
  {
    assert "HTTP/1.1 " == "HTTP/1.1" + " ";
  }

  lemma NumericParts(s: seq<char>, num: seq<char>, tail: seq<char>)
    requires s == "HTTP/1.1" + (" " + (num + (" " + tail)))
    ensures At(s, 0, "HTTP/1.1") && At(s, 8, " ") && At(s, 9, num) && At(s, 9 + |num|, " ")
  {
    hide At;
    var s2 := num + (" " + tail);
    AtSelf(s);
    AtSplit(s, 0, "HTTP/1.1", " " + s2);
    AtSplit(s, 8, " ", s2);
    AtSplit(s, 9, num, " " + tail);
    AtSplit(s, 9 + |num|, " ", tail);
  }

  /** The loop stops for ever in the status of the first reply iff that is a number that fits an int and is not
      a known status, whatever follows it. */
  lemma UnknownStatusSpinsIff(n: nat, tail: seq<char>, outstanding: seq<nat>)
    ensures var s := "HTTP/1.1 " + ToDecimal(n) + " " + tail;
      Loop(START, s, outstanding)
        == Result(Spinning, [], START.(progress := ParsingStatus, bytes := 9), s[9..], outstanding)
      <==> n <= INT_MAX && !Known(n)
  {
    hide Parse, ToDecimal, Known, At;
    var s, st := "HTTP/1.1 " + ToDecimal(n) + " " + tail, Parse(START, "HTTP/1.1 " + ToDecimal(n) + " " + tail);
    StatusNests(ToDecimal(n), tail);
    NumericParts(s, ToDecimal(n), tail);
    NumericStatus(s, n);
    if n <= INT_MAX && !Known(n) {
      var rest := s[9..];
      assert Drop(s, 9) == rest && Drop(rest, 0) == rest;
      assert Parse(st, rest) == st by { RestOfStatus(s, n, st); }
    } else if st.progress.ParsingHeaders? || st.progress.ParsingBody? {
      StatusIsPast(st, Drop(s, st.bytes), outstanding);
    }
  }

  /** What is left in the buffer stops the parser at the same place. */
  lemma RestOfStatus(s: seq<char>, n: nat, st: Parser)
    requires At(s, 9, ToDecimal(n)) && At(s, 9 + |ToDecimal(n)|, " ")
    requires n <= INT_MAX && !Known(n) && st.progress.ParsingStatus?
    ensures |s| > 9 && Parse(st, s[9..]) == st
  {
    hide ToDecimal, Known;
    assert At(s[9..], 0, ToDecimal(n)) && At(s[9..], |ToDecimal(n)|, " ");
    StatusRead(st, s[9..], 0, n);
  }
}
