/** The texts that the reply parser of src/http/HttpDef.cpp accepts, and those that it prints, written out. */
module ReplyText {
  import opened Wrappers
  import opened HttpText
  import opened HttpReply
  import opened HttpClients
  import opened Buffers

  // ---------- the tables ----------

  /** The status numbers, and nothing else. */
  lemma StatusNumbers(status: nat)
    ensures Known(status) <==>
      status in [200, 201, 202, 204, 300, 301, 302, 304, 400, 401, 403, 404, 500, 501, 502, 503]
    ensures Known(status) ==> StatusNumber(status) == ToDecimal(status)
  {
    hide ToDecimal;
  }

  lemma TextsBelow400()
    ensures StatusString(200) == "Ok" && StatusString(201) == "Created" && StatusString(202) == "Accepted"
    ensures StatusString(204) == "No Content" && StatusString(300) == "Multiple Choices"
    ensures StatusString(301) == "Moved Permanently" && StatusString(302) == "Moved Temporarily"
    ensures StatusString(304) == "Not Modified"
  {
  }

  lemma TextsFrom400()
    ensures StatusString(400) == "Bad RequestParser" && StatusString(401) == "Unauthorized"
    ensures StatusString(403) == "Forbidden" && StatusString(404) == "Not Found"
    ensures StatusString(500) == "Internal Server Error" && StatusString(501) == "Not Implemented"
    ensures StatusString(502) == "Bad Gateway" && StatusString(503) == "Service Unavailable"
  {
  }

  lemma DecimalOfThree(n: nat)
    requires 100 <= n < 1000
    ensures ToDecimal(n) == [('0' as int + n / 100) as char, ('0' as int + n / 10 % 10) as char,
                             ('0' as int + n % 10) as char]
  {
    assert ToDecimal(n) == ToDecimal(n / 10) + [(48 + n % 10) as char];
    assert ToDecimal(n / 10) == ToDecimal(n / 100) + [(48 + n / 10 % 10) as char];
  }

  lemma PrintedOk()
    ensures StatusNumber(200) == "200"
  {
    hide ToDecimal;
    DecimalOfThree(200);
  }

  // ---------- stage by stage ----------

  lemma ReasonRead(st: Parser, s: seq<char>, p: nat, reason: seq<char>, eol: seq<char>)
    requires p > 0 && IsEol(eol) && At(s, p, reason) && At(s, p + |reason|, eol)
    requires forall i | 0 <= i < |reason| :: reason[i] != '\n'
    ensures var n := |reason| + |eol|;
      StatusStringStage(st, s, p) == HeaderStage(st.(progress := ParsingHeaders, bytes := st.bytes + n), s, p + n)
  {
    hide HeaderStage;
    var q := p + |reason|;
    AtIndex(s, q, eol, 0);
    AtIndex(s, q, eol, |eol| - 1);
    forall i | p <= i < q + |eol| - 1 ensures s[i] != '\n' {
      if i < q {
        AtIndex(s, p, reason, i - p);
      }
    }
    FindIs(s, p, |s|, '\n', q + |eol| - 1);
  }

  lemma {:induction false} FieldsRead(st: Parser, s: seq<char>, p: nat, fs: seq<FieldText>, eol: seq<char>)
    requires IsEol(eol) && At(s, p, FieldLines(fs, eol)) && forall i | 0 <= i < |fs| :: FieldTextOk(fs[i])
    ensures HeaderStage(st, s, p) ==
      HeaderStage(st.(headers := Enter(st.headers, AllMeant(fs, eol)), bytes := st.bytes + |FieldLines(fs, eol)|),
                  s, p + |FieldLines(fs, eol)|)
    decreases fs
  {
    hide NextLine, FieldLine, FieldTextOk, Meant, IsEol, At, BodyStage;
    if fs != [] {
      var h, n := Meant(fs[0], eol), |FieldLine(fs[0], eol)|;
      AtSplit(s, p, FieldLine(fs[0], eol), FieldLines(fs[1..], eol));
      NextLineField(s, p, fs[0], eol);
      assert AllMeant(fs, eol)[1..] == AllMeant(fs[1..], eol);
      AtIndex(s, p, FieldLine(fs[0], eol), 0);
      FieldsRead(st.(headers := st.headers[h.key := h.value], bytes := st.bytes + n), s, p + n, fs[1..], eol);
    } else {
      NoFields(st, eol);
    }
  }

  lemma NoFields(st: Parser, eol: seq<char>)
    ensures st.(headers := Enter(st.headers, AllMeant([], eol)), bytes := st.bytes + |FieldLines([], eol)|) == st
  {
  }

  lemma HeadersRead(st: Parser, s: seq<char>, p: nat, fs: seq<FieldText>, eol: seq<char>, end: seq<char>)
    requires IsEol(eol) && IsEol(end) && forall i | 0 <= i < |fs| :: FieldTextOk(fs[i])
    requires At(s, p, FieldLines(fs, eol)) && At(s, p + |FieldLines(fs, eol)|, end)
    ensures var n := |FieldLines(fs, eol)| + |end|;
      HeaderStage(st, s, p) ==
        BodyStage(st.(progress := ParsingBody, headers := Enter(st.headers, AllMeant(fs, eol)), bytes := st.bytes + n),
                  s, p + n)
  {
    hide NextLine, FieldLines, FieldTextOk, AllMeant, At, Enter, BodyStage, HeaderStage;
    var q := p + |FieldLines(fs, eol)|;
    FieldsRead(st, s, p, fs, eol);
    NextLineEmpty(s, q, end);
    AtIndex(s, q, end, 0);
    BlankEnds(st.(headers := Enter(st.headers, AllMeant(fs, eol)), bytes := st.bytes + |FieldLines(fs, eol)|), s, q);
  }

  /** The content is as long as the field named Content-Length says. */
  lemma BodyRead(st: Parser, s: seq<char>, p: nat, content: seq<char>)
    requires At(s, p, content) && st.content == [] && |content| <= 2147483647
    requires "Content-Length" in st.headers && st.headers["Content-Length"] == ToDecimal(|content|)
    ensures BodyStage(st, s, p) == st.(progress := Good, bytes := st.bytes + |content|, content := content)
  {
    hide Stoi, ToDecimal;
    StoiInverts(|content|);
    AtSlice(s, p, content);
    assert [] + content == content;
  }

  // ---------- the whole text ----------

  /** A reply, as it may be written. */
  function Text(number: seq<char>, reason: seq<char>, fields: seq<char>, eol: seq<char>, end: seq<char>,
                content: seq<char>): seq<char> {
    "HTTP/1.1 " + number + " " + reason + eol + fields + end + content
  }

  lemma TextNests(number: seq<char>, reason: seq<char>, fields: seq<char>, eol: seq<char>, end: seq<char>,
                  content: seq<char>, tail: seq<char>)
    ensures Text(number, reason, fields, eol, end, content) + tail
         == "HTTP/1.1" + (" " + (number + (" " + (reason + (eol + (fields + (end + (content + tail))))))))
  {
    assert "HTTP/1.1 " == "HTTP/1.1" + " ";
  }

  lemma TextParts(s: seq<char>, number: seq<char>, reason: seq<char>, fields: seq<char>, eol: seq<char>,
                  end: seq<char>, content: seq<char>, tail: seq<char>)
    requires s == Text(number, reason, fields, eol, end, content) + tail
    ensures At(s, 0, "HTTP/1.1") && At(s, 8, " ") && At(s, 9, number) && At(s, 9 + |number|, " ")
    ensures var p := 10 + |number|;
      && At(s, p, reason) && At(s, p + |reason|, eol) && At(s, p + |reason| + |eol|, fields)
      && At(s, p + |reason| + |eol| + |fields|, end) && At(s, p + |reason| + |eol| + |fields| + |end|, content)
  {
    hide At, Text;
    TextNests(number, reason, fields, eol, end, content, tail);
    var r2 := fields + (end + (content + tail));
    var r1 := reason + (eol + r2);
    AtSelf(s);
    SplitThree(s, 0, "HTTP/1.1", " ", number + (" " + r1));
    SplitThree(s, 9, number, " ", r1);
    var p := 10 + |number|;
    SplitThree(s, p, reason, eol, r2);
    SplitThree(s, p + |reason| + |eol|, fields, end, content + tail);
    AtSplit(s, p + |reason| + |eol| + |fields| + |end|, content, tail);
  }

  /** A known status, any reason, any fields with a Content-Length among them, and that much content: exactly this is
      read, whatever follows. */
  lemma ReplyTextParses(status: nat, reason: seq<char>, fs: seq<FieldText>, eol: seq<char>, end: seq<char>,
                        content: seq<char>, tail: seq<char>)
    requires status in [200, 201, 202, 204, 300, 301, 302, 304, 400, 401, 403, 404, 500, 501, 502, 503]
    requires IsEol(eol) && IsEol(end) && forall i | 0 <= i < |fs| :: FieldTextOk(fs[i])
    requires (forall i | 0 <= i < |reason| :: reason[i] != '\n') && |content| <= 2147483647
    requires var m := Enter(map[], AllMeant(fs, eol));
      "Content-Length" in m && m["Content-Length"] == ToDecimal(|content|)
    ensures var text := Text(ToDecimal(status), reason, FieldLines(fs, eol), eol, end, content);
      Parse(START, text + tail)
        == Parser(Good, |text|, status, content, Enter(map[], AllMeant(fs, eol)))
  {
    hide HeaderStage, StatusStage, StatusStringStage, VersionStage, BodyStage, At, ToDecimal, Known, FieldLines,
      AllMeant, Enter, FieldTextOk, IsEol;
    var number, fields := ToDecimal(status), FieldLines(fs, eol);
    var s := Text(number, reason, fields, eol, end, content) + tail;
    TextParts(s, number, reason, fields, eol, end, content, tail);
    StatusNumbers(status);
    KnownFits(status);
    VersionPrinted(START.(progress := ParsingVersion), s);
    var st1 := START.(progress := ParsingStatus, bytes := 9);
    StatusRead(st1, s, 9, status);
    var p := 10 + |number|;
    var st2 := st1.(progress := ParsingStatusString, status := status, bytes := p);
    ReasonRead(st2, s, p, reason, eol);
    var q := p + |reason| + |eol|;
    var st3 := st2.(progress := ParsingHeaders, bytes := q);
    HeadersRead(st3, s, q, fs, eol, end);
    var r := q + |fields| + |end|;
    BodyRead(st3.(progress := ParsingBody, headers := Enter(map[], AllMeant(fs, eol)), bytes := r), s, r, content);
  }

  // ---------- the read loop on such texts ----------

  /** The reply goes to the first outstanding request, and the loop goes on with what follows; without such a request
      the original takes the front of an empty list. */
  lemma TextIsDelivered(status: nat, reason: seq<char>, fs: seq<FieldText>, eol: seq<char>, end: seq<char>,
                        content: seq<char>, tail: seq<char>, outstanding: seq<nat>)
    requires status in [200, 201, 202, 204, 300, 301, 302, 304, 400, 401, 403, 404, 500, 501, 502, 503]
    requires IsEol(eol) && IsEol(end) && forall i | 0 <= i < |fs| :: FieldTextOk(fs[i])
    requires (forall i | 0 <= i < |reason| :: reason[i] != '\n') && |content| <= 2147483647
    requires var m := Enter(map[], AllMeant(fs, eol));
      "Content-Length" in m && m["Content-Length"] == ToDecimal(|content|)
    ensures var text := Text(ToDecimal(status), reason, FieldLines(fs, eol), eol, end, content);
      var reply := Parser(Good, |text|, status, content, Enter(map[], AllMeant(fs, eol)));
      var r := Loop(START, text + tail, outstanding);
      if outstanding == [] then r == Result(NoRequest, [], reply, tail, [])
      else
        var next := Loop(START, tail, outstanding[1..]);
        r == next.(delivered := [Delivery(outstanding[0], reply)] + next.delivered)
  {
    hide Parse, ToDecimal, FieldLines, AllMeant, Enter, FieldTextOk, IsEol, Text;
    var text := Text(ToDecimal(status), reason, FieldLines(fs, eol), eol, end, content);
    ReplyTextParses(status, reason, fs, eol, end, content, tail);
    TextNotEmpty(ToDecimal(status), reason, FieldLines(fs, eol), eol, end, content);
    assert Drop(text + tail, |text|) == tail;
  }

  lemma TextNotEmpty(number: seq<char>, reason: seq<char>, fields: seq<char>, eol: seq<char>, end: seq<char>,
                     content: seq<char>)
    ensures Text(number, reason, fields, eol, end, content) != []
  {
  }

  /** Input that begins with any other word than HTTP/1.1 fails at once. */
  lemma OtherVersionFails(word: seq<char>, rest: seq<char>, outstanding: seq<nat>)
    requires (forall i | 0 <= i < |word| :: word[i] != ' ') && word != "HTTP/1.1"
    requires word + rest != [] && (rest == [] || rest[0] == ' ')
    ensures var r := Loop(START, word + rest, outstanding);
      r.outcome.Failed? && r.delivered == [] && r.outstanding == outstanding
  {
    hide StatusStage;
    var s := word + rest;
    FindIs(s, 0, |s|, ' ', |word|);
    assert s[0..|word|] == word;
  }

  lemma LineBreaks(st: Parser, s: seq<char>, p: nat, fs: seq<FieldText>, line: seq<char>, eol: seq<char>)
    requires IsEol(eol) && forall i | 0 <= i < |fs| :: FieldTextOk(fs[i])
    requires (forall i | 0 <= i < |line| :: line[i] != '\n') && |line| + |eol| > 2 && NoField(LineText(line, eol))
    requires At(s, p, FieldLines(fs, eol)) && At(s, p + |FieldLines(fs, eol)|, line + eol)
    ensures HeaderStage(st, s, p).progress.Undefined?
  {
    hide NextLine, FieldLines, FieldTextOk, AllMeant, At, IsEol, Enter, NoField, LineText, BodyStage;
    var q := p + |FieldLines(fs, eol)|;
    FieldsRead(st, s, p, fs, eol);
    AtIndex(s, q, line + eol, 0);
    BrokenIff(s, q, line, eol);
  }

  /** A header line of more than one character that is no field ends the loop by an exception, or by a read outside
      of the line. */
  lemma BrokenLineAborts(status: nat, reason: seq<char>, fs: seq<FieldText>, eol: seq<char>, line: seq<char>,
                         rest: seq<char>, outstanding: seq<nat>)
    requires status in [200, 201, 202, 204, 300, 301, 302, 304, 400, 401, 403, 404, 500, 501, 502, 503]
    requires IsEol(eol) && forall i | 0 <= i < |fs| :: FieldTextOk(fs[i])
    requires forall i | 0 <= i < |reason| :: reason[i] != '\n'
    requires (forall i | 0 <= i < |line| :: line[i] != '\n') && |line| + |eol| > 2 && NoField(LineText(line, eol))
    ensures var text := Text(ToDecimal(status), reason, FieldLines(fs, eol), eol, line + eol, rest);
      var r := Loop(START, text, outstanding);
      r.outcome.Aborted? && r.delivered == [] && r.outstanding == outstanding
  {
    hide HeaderStage, StatusStage, StatusStringStage, VersionStage, At, ToDecimal, Known, FieldLines, FieldTextOk,
      IsEol, NoField, LineText;
    var number, fields := ToDecimal(status), FieldLines(fs, eol);
    var s := Text(number, reason, fields, eol, line + eol, rest);
    assert s == s + [];
    TextParts(s, number, reason, fields, eol, line + eol, rest, []);
    StatusNumbers(status);
    KnownFits(status);
    VersionPrinted(START.(progress := ParsingVersion), s);
    var st1 := START.(progress := ParsingStatus, bytes := 9);
    StatusRead(st1, s, 9, status);
    var p := 10 + |number|;
    var st2 := st1.(progress := ParsingStatusString, status := status, bytes := p);
    ReasonRead(st2, s, p, reason, eol);
    var q := p + |reason| + |eol|;
    LineBreaks(st2.(progress := ParsingHeaders, bytes := q), s, q, fs, line, eol);
    TextNotEmpty(number, reason, fields, eol, line + eol, rest);
  }

  // ---------- a reply with a content and nothing else ----------

  /** What the field of the length means. */
  lemma LengthFieldMeans(n: nat)
    ensures var fs := [FieldText("Content-Length", "", " ", ToDecimal(n))];
      && FieldTextOk(fs[0]) && FieldLines(fs, "\r\n") == "Content-Length: " + ToDecimal(n) + "\r\n"
      && Enter(map[], AllMeant(fs, "\r\n")) == map["Content-Length" := ToDecimal(n)]
  {
    hide ToDecimal;
    var v := ToDecimal(n);
    var f := FieldText("Content-Length", "", " ", v);
    assert IsDigit(v[0]);
    assert f.key[13] == 'h';
    assert [f][1..] == [];
    assert "Content-Length" + "" + ":" + " " + v + "\r\n" == "Content-Length: " + v + "\r\n" by {
      assert "Content-Length" + "" + ":" + " " == "Content-Length: ";
    }
    assert AllMeant([f], "\r\n") == [Header("Content-Length", v)];
    assert [Header("Content-Length", v)][1..] == [];
  }

  lemma ContentText(v: seq<char>, b: seq<char>)
    ensures Text("200", "Ok", "Content-Length: " + v + "\r\n", "\r\n", "\r\n", b)
         == "HTTP/1.1 200 Ok\r\nContent-Length: " + v + "\r\n\r\n" + b
  {
    assert "HTTP/1.1 " + "200" + " " + "Ok" + "\r\n" == "HTTP/1.1 200 Ok\r\n";
    assert "HTTP/1.1 200 Ok\r\n" + ("Content-Length: " + v + "\r\n") + "\r\n"
        == "HTTP/1.1 200 Ok\r\nContent-Length: " + v + "\r\n\r\n" by {
      assert "HTTP/1.1 200 Ok\r\n" + "Content-Length: " == "HTTP/1.1 200 Ok\r\nContent-Length: ";
      assert "\r\n" + "\r\n" == "\r\n\r\n";
    }
  }

  /** A reply that says nothing but its length, written out. */
  lemma ContentIsFramed(b: seq<char>, tail: seq<char>)
    requires |b| <= 2147483647
    ensures var text := "HTTP/1.1 200 Ok\r\nContent-Length: " + ToDecimal(|b|) + "\r\n\r\n" + b;
      Parse(START, text + tail) == Parser(Good, |text|, 200, b, map["Content-Length" := ToDecimal(|b|)])
  {
    hide Parse, ToDecimal, FieldLines, FieldTextOk, AllMeant, Enter, Text;
    var fs := [FieldText("Content-Length", "", " ", ToDecimal(|b|))];
    LengthFieldMeans(|b|);
    ContentText(ToDecimal(|b|), b);
    DecimalOfThree(200);
    ReplyTextParses(200, "Ok", fs, "\r\n", "\r\n", b, tail);
  }

  /** What is printed is such a text. */
  lemma PrintedIsText(r: Reply, hs: seq<Header>)
    ensures ToString(r, hs) ==
      Text(StatusNumber(r.status), StatusString(r.status), PrintHeaders(hs), "\r\n", "\r\n", r.content)
  {
    hide StatusNumber, StatusString, PrintHeaders;
  }

  /** And that is what a reply with only a content is printed as. */
  lemma ContentIsPrinted(b: seq<char>)
    requires b != []
    ensures WithLength(Reply(200, b, map[])) == map["Content-Length" := ToDecimal(|b|)]
    ensures ToString(Reply(200, b, map[]), [Header("Content-Length", ToDecimal(|b|))])
         == "HTTP/1.1 200 Ok\r\nContent-Length: " + ToDecimal(|b|) + "\r\n\r\n" + b
  {
    hide ToDecimal, Text, PrintHeaders, StatusNumber, StatusString, ToString, WithLength;
    var v := ToDecimal(|b|);
    OnlyLength(b);
    PrintedIsText(Reply(200, b, map[]), [Header("Content-Length", v)]);
    PrintedOk();
    TextsBelow400();
    LengthPrinted(v);
    ContentText(v, b);
  }

  lemma OnlyLength(b: seq<char>)
    requires b != []
    ensures WithLength(Reply(200, b, map[])) == map["Content-Length" := ToDecimal(|b|)]
  {
    hide ToDecimal;
    assert map[][LENGTH := ToDecimal(|b|)] == map[LENGTH := ToDecimal(|b|)];
  }

  lemma LengthPrinted(v: seq<char>)
    ensures PrintHeaders([Header("Content-Length", v)]) == "Content-Length: " + v + "\r\n"
  {
    assert [Header("Content-Length", v)][1..] == [];
    assert "Content-Length" + ": " == "Content-Length: ";
  }
}
