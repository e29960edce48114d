/** The text helpers that both parsers of src/http/HttpDef.cpp share. Positions may run past the end of
    the input, because std::find returns the end when it finds nothing. */
module HttpText {
  import opened Wrappers

  /** std::find over [from, end): the first position of c, or `end`. */
  function Find(s: seq<char>, from: nat, end: nat, c: char): (f: nat)
    requires from <= end <= |s|
    ensures from <= f <= end
    ensures f < end ==> s[f] == c
    ensures forall i | from <= i < f :: s[i] != c
    decreases end - from
  {
    if from == end || s[from] == c then from else Find(s, from + 1, end, c)
  }

  /** What Find returns is determined by its postcondition. */
  lemma FindIs(s: seq<char>, from: nat, end: nat, c: char, f: nat)
    requires from <= f <= end <= |s|
    requires f < end ==> s[f] == c
    requires forall i | from <= i < f :: s[i] != c
    ensures Find(s, from, end, c) == f
  {
  }

  /** std::isspace in the C locale. */
  predicate IsSpace(c: char) {
    c == ' ' || 9 <= c as int <= 13
  }

  /** Space, tab, newline, vertical tab, form feed, carriage return, and nothing else. */
  lemma SpacesAre(c: char)
    ensures IsSpace(c) <==> c in " \t\n\U{000B}\U{000C}\r"
  {
    var spaces := " \t\n\U{000B}\U{000C}\r";
    assert spaces == [' ', 9 as char, 10 as char, 11 as char, 12 as char, 13 as char];
    if IsSpace(c) && c != ' ' {
      assert c == spaces[c as int - 9 + 1] || c == '\r';
    }
  }

  /** One past the last character of s[from..end) that is not a space; `from` if there is none. */
  function TrimRight(s: seq<char>, from: nat, end: nat): (e: nat)
    requires from <= end <= |s|
    ensures from <= e <= end
    ensures from < e ==> !IsSpace(s[e - 1])
    ensures forall i | e <= i < end :: IsSpace(s[i])
  {
    if from == end || !IsSpace(s[end - 1]) then end else TrimRight(s, from, end - 1)
  }

  /** The first character of s[from..end) that is not a space; `end` if there is none. */
  function SkipSpaces(s: seq<char>, from: nat, end: nat): (b: nat)
    requires from <= end <= |s|
    ensures from <= b <= end
    ensures b < end ==> !IsSpace(s[b])
    ensures forall i | from <= i < b :: IsSpace(s[i])
    decreases end - from
  {
    if from == end || !IsSpace(s[from]) then from else SkipSpaces(s, from + 1, end)
  }

  datatype Header = Header(key: seq<char>, value: seq<char>)

  /** ParseHeader on [p, e). None stands for the std::length_error or the read outside the line that the
      original runs into when there is no colon, or nothing but spaces on one side of it. */
  function HeaderLine(s: seq<char>, p: nat, e: nat): Option<Header>
    requires p <= e <= |s|
  {
    var mid := Find(s, p, e, ':');
    if mid == e then None
    else
      var left := TrimRight(s, p, mid);
      var right := SkipSpaces(s, mid + 1, e);
      if left == p || right == e then None else Some(Header(s[p..left], s[right..e]))
  }

  /** `*(finish - 1) == '\r' ? finish - 1 : finish` */
  function LineEnd(s: seq<char>, f: nat): nat
    requires 0 < f <= |s|
  {
    if s[f - 1] == '\r' then f - 1 else f
  }

  predicate Contains(s: seq<char>, c: char) {
    exists i | 0 <= i < |s| :: s[i] == c
  }

  /** The header fields that survive printing and parsing (sections 3.2 and 3.2.4 of RFC 7230 allow
      fewer keys). */
  predicate HeaderOk(h: Header) {
    && h.key != [] && !Contains(h.key, ':') && !Contains(h.key, '\n') && !IsSpace(h.key[|h.key| - 1])
    && h.value != [] && !Contains(h.value, '\n') && !IsSpace(h.value[0])
  }

  predicate HeadersOk(m: map<seq<char>, seq<char>>) {
    forall k | k in m :: HeaderOk(Header(k, m[k]))
  }

  function PrintHeader(h: Header): seq<char> {
    h.key + ": " + h.value + "\r\n"
  }

  function PrintHeaders(hs: seq<Header>): seq<char> {
    if hs == [] then [] else PrintHeader(hs[0]) + PrintHeaders(hs[1..])
  }

  /** hs lists the fields of m in some order: what iterating an unordered_map yields. */
  ghost predicate Lists(hs: seq<Header>, m: map<seq<char>, seq<char>>) {
    && (forall i, j | 0 <= i < j < |hs| :: hs[i].key != hs[j].key)
    && (forall i | 0 <= i < |hs| :: hs[i].key in m && m[hs[i].key] == hs[i].value)
    && (forall k | k in m :: exists i | 0 <= i < |hs| :: hs[i].key == k)
  }

  /** Entering fields one after the other, as `headers_[key] = value` does. */
  function Enter(m: map<seq<char>, seq<char>>, hs: seq<Header>): map<seq<char>, seq<char>>
    decreases hs
  {
    if hs == [] then m else Enter(m[hs[0].key := hs[0].value], hs[1..])
  }

  lemma {:induction false} EnterGives(m: map<seq<char>, seq<char>>, hs: seq<Header>)
    requires forall i, j | 0 <= i < j < |hs| :: hs[i].key != hs[j].key
    ensures forall i | 0 <= i < |hs| :: hs[i].key in Enter(m, hs) && Enter(m, hs)[hs[i].key] == hs[i].value
    ensures forall k | (forall i | 0 <= i < |hs| :: hs[i].key != k) ::
      (k in Enter(m, hs) <==> k in m) && (k in m ==> Enter(m, hs)[k] == m[k])
    decreases hs
  {
    if hs != [] {
      var m1, t := m[hs[0].key := hs[0].value], hs[1..];
      EnterGives(m1, t);
      forall i | 0 <= i < |hs| ensures hs[i].key in Enter(m, hs) && Enter(m, hs)[hs[i].key] == hs[i].value {
        if i > 0 {
          assert hs[i] == t[i - 1];
        } else {
          assert forall j | 0 <= j < |t| :: t[j].key == hs[j + 1].key != hs[0].key;
        }
      }
      forall k | forall i | 0 <= i < |hs| :: hs[i].key != k
        ensures (k in Enter(m, hs) <==> k in m) && (k in m ==> Enter(m, hs)[k] == m[k])
      {
        assert forall j | 0 <= j < |t| :: t[j].key == hs[j + 1].key != k;
      }
    }
  }

  /** A later field replaces an earlier one of the same key. */
  lemma {:induction false} EnterLast(m: map<seq<char>, seq<char>>, hs: seq<Header>, h: Header)
    ensures Enter(m, hs + [h]) == Enter(m, hs)[h.key := h.value]
    decreases hs
  {
    if hs == [] {
      assert ([] + [h])[1..] == [];
    } else {
      assert (hs + [h])[1..] == hs[1..] + [h];
      EnterLast(m[hs[0].key := hs[0].value], hs[1..], h);
    }
  }

  /** Whatever the iteration order was, entering the printed fields rebuilds the map. */
  lemma EnterRebuilds(hs: seq<Header>, m: map<seq<char>, seq<char>>)
    requires Lists(hs, m)
    ensures Enter(map[], hs) == m
  {
    EnterGives(map[], hs);
    var r := Enter(map[], hs);
    forall k ensures k in r <==> k in m {
      if k in m {
        var i :| 0 <= i < |hs| && hs[i].key == k;
      } else {
        assert forall i | 0 <= i < |hs| :: hs[i].key != k;
      }
    }
    forall k | k in m ensures r[k] == m[k] {
      var i :| 0 <= i < |hs| && hs[i].key == k;
    }
  }

  /** Conversely, every field that parses at all is well-formed. */
  lemma ParsedHeaderOk(s: seq<char>, p: nat, e: nat)
    requires p <= e <= |s| && forall i | p <= i < e :: s[i] != '\n'
    requires HeaderLine(s, p, e).Some?
    ensures HeaderOk(HeaderLine(s, p, e).value)
  {
  }

  // ---------- looking at more input changes nothing ----------

  lemma FindInside(a: seq<char>, b: seq<char>, from: nat, c: char)
    requires from <= |a| && Find(a, from, |a|, c) < |a|
    ensures Find(a + b, from, |a + b|, c) == Find(a, from, |a|, c)
  {
    FindIs(a + b, from, |a + b|, c, Find(a, from, |a|, c));
  }

  lemma {:induction false} TrimRightEmbeds(s: seq<char>, t: seq<char>, d: nat, from: nat, end: nat)
    requires from <= end <= |t| && d + end <= |s|
    requires forall i | from <= i < end :: s[d + i] == t[i]
    ensures TrimRight(s, d + from, d + end) == d + TrimRight(t, from, end)
    decreases end - from
  {
    if from < end && IsSpace(t[end - 1]) {
      TrimRightEmbeds(s, t, d, from, end - 1);
    }
  }

  lemma {:induction false} SkipSpacesEmbeds(s: seq<char>, t: seq<char>, d: nat, from: nat, end: nat)
    requires from <= end <= |t| && d + end <= |s|
    requires forall i | from <= i < end :: s[d + i] == t[i]
    ensures SkipSpaces(s, d + from, d + end) == d + SkipSpaces(t, from, end)
    decreases end - from
  {
    if from < end && IsSpace(t[from]) {
      SkipSpacesEmbeds(s, t, d, from + 1, end);
    }
  }

  lemma SliceEmbeds(s: seq<char>, t: seq<char>, d: nat, a: nat, b: nat)
    requires a <= b <= |t| && d + b <= |s|
    requires forall i | a <= i < b :: s[d + i] == t[i]
    ensures s[d + a..d + b] == t[a..b]
  {
    forall k | 0 <= k < b - a ensures s[d + a..d + b][k] == t[a..b][k] {
      assert s[d + (a + k)] == t[a + k];
    }
  }

  lemma FindEmbeds(s: seq<char>, t: seq<char>, d: nat, p: nat, e: nat, c: char)
    requires p <= e <= |t| && d + e <= |s|
    requires forall i | p <= i < e :: s[d + i] == t[i]
    ensures Find(s, d + p, d + e, c) == d + Find(t, p, e, c)
  {
    var f := Find(t, p, e, c);
    forall i | d + p <= i < d + f ensures s[i] != c {
      assert s[d + (i - d)] == t[i - d];
    }
    FindIs(s, d + p, d + e, c, d + f);
  }

  /** A line parses the same wherever it stands. */
  lemma HeaderLineEmbeds(s: seq<char>, t: seq<char>, d: nat, p: nat, e: nat)
    requires p <= e <= |t| && d + e <= |s|
    requires forall i | p <= i < e :: s[d + i] == t[i]
    ensures HeaderLine(s, d + p, d + e) == HeaderLine(t, p, e)
  {
    hide Find, TrimRight, SkipSpaces;
    var mid := Find(t, p, e, ':');
    FindEmbeds(s, t, d, p, e, ':');
    if mid < e {
      SidesEmbed(s, t, d, p, mid, e);
    }
  }

  lemma SidesEmbed(s: seq<char>, t: seq<char>, d: nat, p: nat, mid: nat, e: nat)
    requires p <= mid < e <= |t| && d + e <= |s|
    requires forall i | p <= i < e :: s[d + i] == t[i]
    ensures TrimRight(s, d + p, d + mid) == d + TrimRight(t, p, mid)
    ensures SkipSpaces(s, d + mid + 1, d + e) == d + SkipSpaces(t, mid + 1, e)
    ensures s[d + p..d + TrimRight(t, p, mid)] == t[p..TrimRight(t, p, mid)]
    ensures s[d + SkipSpaces(t, mid + 1, e)..d + e] == t[SkipSpaces(t, mid + 1, e)..e]
  {
    hide TrimRight, SkipSpaces, IsSpace;
    TrimRightEmbeds(s, t, d, p, mid);
    SkipSpacesEmbeds(s, t, d, mid + 1, e);
    var left, right := TrimRight(t, p, mid), SkipSpaces(t, mid + 1, e);
    SliceEmbeds(s, t, d, p, left);
    SliceEmbeds(s, t, d, right, e);
  }

  // ---------- a printed field parses back ----------

  /** A field as it may be written: spaces around the colon are free. */
  datatype FieldText = FieldText(key: seq<char>, before: seq<char>, after: seq<char>, value: seq<char>)

  predicate IsGap(gap: seq<char>) {
    forall i | 0 <= i < |gap| :: gap[i] in " \t\U{000B}\U{000C}\r"
  }

  predicate IsEol(eol: seq<char>) {
    eol == "\r\n" || eol == "\n"
  }

  function FieldLine(f: FieldText, eol: seq<char>): seq<char> {
    f.key + f.before + ":" + f.after + f.value + eol
  }

  predicate FieldTextOk(f: FieldText) {
    HeaderOk(Header(f.key, f.value)) && IsGap(f.before) && IsGap(f.after)
  }

  /** The field that is read: in front of a bare newline, a value loses a carriage return at its end. */
  function Meant(f: FieldText, eol: seq<char>): Header {
    if eol == "\n" && f.value != [] && f.value[|f.value| - 1] == '\r'
    then Header(f.key, f.value[..|f.value| - 1])
    else Header(f.key, f.value)
  }

  lemma GapIsSpace(gap: seq<char>)
    requires IsGap(gap)
    ensures forall i | 0 <= i < |gap| :: IsSpace(gap[i]) && gap[i] != '\n' && gap[i] != ':'
  {
    forall i | 0 <= i < |gap| ensures IsSpace(gap[i]) && gap[i] != '\n' && gap[i] != ':' {
      SpacesAre(gap[i]);
    }
  }

  /** Where the parts of a field stand. */
  lemma FieldParts(f: FieldText, eol: seq<char>)
    ensures var t, k := FieldLine(f, eol), |f.key|;
      var c := k + |f.before|;
      var v := c + 1 + |f.after|;
      && |t| == v + |f.value| + |eol|
      && At(t, 0, f.key) && At(t, k, f.before) && At(t, c, ":") && At(t, c + 1, f.after)
      && At(t, v, f.value) && At(t, v + |f.value|, eol)
  {
    hide At;
    FieldNests(f.key, f.before, f.after, f.value, eol);
    FieldSplits(FieldLine(f, eol), f.key, f.before, f.after, f.value, eol);
  }

  lemma FieldSplits(t: seq<char>, a: seq<char>, b: seq<char>, c: seq<char>, d: seq<char>, e: seq<char>)
    requires t == a + (b + (":" + (c + (d + e))))
    ensures At(t, 0, a) && At(t, |a|, b) && At(t, |a| + |b|, ":") && At(t, |a| + |b| + 1, c)
    ensures At(t, |a| + |b| + 1 + |c|, d) && At(t, |a| + |b| + 1 + |c| + |d|, e)
  {
    hide At;
    AtSelf(t);
    SplitThree(t, 0, a, b, ":" + (c + (d + e)));
    AtSplit(t, |a| + |b|, ":", c + (d + e));
    SplitThree(t, |a| + |b| + 1, c, d, e);
  }

  lemma SplitThree(t: seq<char>, p: nat, a: seq<char>, b: seq<char>, c: seq<char>)
    requires At(t, p, a + (b + c))
    ensures At(t, p, a) && At(t, p + |a|, b) && At(t, p + |a| + |b|, c)
  {
    hide At;
    AtSplit(t, p, a, b + c);
    AtSplit(t, p + |a|, b, c);
  }

  lemma FieldNests(a: seq<char>, b: seq<char>, c: seq<char>, d: seq<char>, e: seq<char>)
    ensures a + b + ":" + c + d + e == a + (b + (":" + (c + (d + e))))
  {
  }

  /** What stands between the parts. */
  lemma FieldChars(f: FieldText, eol: seq<char>)
    requires FieldTextOk(f) && IsEol(eol)
    ensures var t, k := FieldLine(f, eol), |f.key|;
      var c := k + |f.before|;
      var v, n := c + 1 + |f.after|, c + 1 + |f.after| + |f.value|;
      && k > 0 && v < n && |t| == n + |eol| && t[c] == ':' && t[n - 1] == f.value[|f.value| - 1]
      && !IsSpace(t[k - 1]) && (forall i | k <= i < c :: IsSpace(t[i]))
      && (forall i | c < i < v :: IsSpace(t[i])) && !IsSpace(t[v])
      && (forall i | 0 <= i < n :: t[i] != '\n') && (forall i | 0 <= i < c :: t[i] != ':')
  {
    hide IsSpace, At, FieldLine, IsGap;
    var t, k := FieldLine(f, eol), |f.key|;
    var c := k + |f.before|;
    var v, n := c + 1 + |f.after|, c + 1 + |f.after| + |f.value|;
    FieldParts(f, eol);
    GapIsSpace(f.before);
    GapIsSpace(f.after);
    AtIndex(t, 0, f.key, k - 1);
    AtIndex(t, c, ":", 0);
    AtIndex(t, v, f.value, 0);
    AtIndex(t, v, f.value, |f.value| - 1);
    forall i | 0 <= i < n
      ensures t[i] != '\n' && (i < c ==> t[i] != ':') && (k <= i < c || c < i < v ==> IsSpace(t[i]))
    {
      if i < k {
        AtIndex(t, 0, f.key, i);
      } else if i < c {
        AtIndex(t, k, f.before, i - k);
      } else if c < i < v {
        AtIndex(t, c + 1, f.after, i - c - 1);
      } else if v <= i {
        AtIndex(t, v, f.value, i - v);
      }
    }
  }

  lemma FieldFind(f: FieldText, eol: seq<char>)
    requires FieldTextOk(f) && IsEol(eol)
    ensures var t := FieldLine(f, eol);
      && |t| >= 4 && Find(t, 0, |t|, '\n') == |t| - 1
      && LineEnd(t, |t| - 1) == |t| - |eol| - (|f.value| - |Meant(f, eol).value|)
      && Find(t, 0, LineEnd(t, |t| - 1), ':') == |f.key| + |f.before|
  {
    hide IsSpace, FieldTextOk, FieldLine, At;
    var t := FieldLine(f, eol);
    FieldParts(f, eol);
    FieldChars(f, eol);
    AtSlice(t, |t| - |eol|, eol);
    EolEnds(t, eol);
    FindIs(t, 0, |t|, '\n', |t| - 1);
    FindIs(t, 0, LineEnd(t, |t| - 1), ':', |f.key| + |f.before|);
  }

  /** A line splits at its first colon, and loses the spaces around it. */
  lemma HeaderLineIs(t: seq<char>, k: nat, c: nat, v: nat, e: nat)
    requires 0 < k <= c < v < e <= |t| && Find(t, 0, e, ':') == c
    requires !IsSpace(t[k - 1]) && (forall i | k <= i < c :: IsSpace(t[i]))
    requires (forall i | c < i < v :: IsSpace(t[i])) && !IsSpace(t[v])
    ensures HeaderLine(t, 0, e) == Some(Header(t[0..k], t[v..e]))
  {
    hide IsSpace, Find;
    assert TrimRight(t, 0, c) == k && SkipSpaces(t, c + 1, e) == v;
  }

  lemma EolEnds(t: seq<char>, eol: seq<char>)
    requires IsEol(eol) && |t| > |eol| && t[|t| - |eol|..] == eol
    ensures t[|t| - 1] == '\n' && (eol == "\r\n" ==> t[|t| - 2] == '\r')
    ensures forall i | |t| - |eol| <= i < |t| - 1 :: t[i] != '\n'
  {
    assert t[|t| - |eol|..][|eol| - 1] == t[|t| - 1];
    assert t[|t| - |eol|..][0] == t[|t| - |eol|];
  }

  /** A field is read as its key and its value, without the spaces around its colon. */
  lemma FieldMeans(f: FieldText, eol: seq<char>)
    requires FieldTextOk(f) && IsEol(eol)
    ensures var t := FieldLine(f, eol);
      |t| >= 4 && HeaderLine(t, 0, LineEnd(t, |t| - 1)) == Some(Meant(f, eol))
  {
    hide Find, IsSpace, FieldTextOk, FieldLine, HeaderLine, At, LineEnd;
    var t, k := FieldLine(f, eol), |f.key|;
    var c := k + |f.before|;
    var v, m := c + 1 + |f.after|, |Meant(f, eol).value|;
    FieldFind(f, eol);
    FieldParts(f, eol);
    FieldChars(f, eol);
    AtSlice(t, 0, f.key);
    AtSlice(t, v, f.value);
    MeantIsPart(f, eol);
    HeaderLineIs(t, k, c, v, v + m);
    SliceOfSlice(t, v, |f.value|, m);
  }

  lemma SliceOfSlice(t: seq<char>, v: nat, n: nat, m: nat)
    requires m <= n && v + n <= |t|
    ensures t[v..v + m] == t[v..v + n][..m]
  {
  }

  lemma MeantIsPart(f: FieldText, eol: seq<char>)
    requires FieldTextOk(f) && IsEol(eol)
    ensures var h := Meant(f, eol); h.key == f.key && 0 < |h.value| <= |f.value| && h.value == f.value[..|h.value|]
  {
  }

  /** The printed form of a field. */
  lemma PrintedIsField(h: Header)
    ensures PrintHeader(h) == FieldLine(FieldText(h.key, "", " ", h.value), "\r\n")
  {
    assert ": " == ":" + " ";
    assert h.key + "" == h.key;
    assert h.key + ": " + h.value == h.key + ":" + " " + h.value;
  }

  lemma PrintedLine(h: Header)
    requires HeaderOk(h)
    ensures var t := PrintHeader(h);
      && |t| >= 6
      && Find(t, 0, |t|, '\n') == |t| - 1
      && LineEnd(t, |t| - 1) == |t| - 2
      && HeaderLine(t, 0, |t| - 2) == Some(h)
  {
    hide Find, HeaderLine, LineEnd, FieldLine;
    var f := FieldText(h.key, "", " ", h.value);
    PrintedIsField(h);
    assert FieldTextOk(f) && Meant(f, "\r\n") == h;
    FieldFind(f, "\r\n");
    FieldMeans(f, "\r\n");
    FieldParts(f, "\r\n");
  }

  /** The printed form of a well-formed field, found at position p of the input, parses back. */
  lemma HeaderRoundTrip(s: seq<char>, p: nat, h: Header)
    requires HeaderOk(h)
    requires p + |PrintHeader(h)| <= |s|
    requires forall i | 0 <= i < |PrintHeader(h)| :: s[p + i] == PrintHeader(h)[i]
    ensures var f := p + |PrintHeader(h)| - 1;
      && f > p + 1
      && Find(s, p, |s|, '\n') == f
      && LineEnd(s, f) == f - 1
      && HeaderLine(s, p, f - 1) == Some(h)
  {
    hide Find, PrintHeader, HeaderLine, HeaderOk;
    var t := PrintHeader(h);
    PrintedLine(h);
    FindEmbeds(s, t, p, 0, |t|, '\n');
    FindIs(s, p, |s|, '\n', p + |t| - 1);
    HeaderLineEmbeds(s, t, p, 0, |t| - 2);
  }

  // ---------- one line of a header section ----------

  /** What the header loop finds at position p: the end of the input, a line of at most one character,
      a field, or a line on which ParseHeader throws. `next` is the position behind its newline (or
      behind the place where the newline was expected). */
  datatype Line = AtEnd | Blank(next: nat) | Field(header: Header, next: nat) | Broken

  function NextLine(s: seq<char>, p: nat): (l: Line)
    requires p <= |s|
    ensures l.AtEnd? <==> p == |s|
    ensures l.Field? ==> p < l.next <= |s| + 1
    ensures l.Blank? ==> p < l.next <= |s| + 1
  {
    if p == |s| then AtEnd
    else
      var f := Find(s, p, |s|, '\n');
      if f <= p + 1 then Blank(f + 1)
      else
        match HeaderLine(s, p, LineEnd(s, f))
        case None => Broken
        case Some(h) => Field(h, f + 1)
  }

  function ShiftLine(l: Line, d: nat): Line {
    match l
    case Blank(next) => Blank(d + next)
    case Field(h, next) => Field(h, d + next)
    case _ => l
  }

  lemma NextLineEmbeds(s: seq<char>, t: seq<char>, d: nat, q: nat)
    requires q <= |t| && d + |t| == |s|
    requires forall i | 0 <= i < |t| :: s[d + i] == t[i]
    ensures NextLine(s, d + q) == ShiftLine(NextLine(t, q), d)
  {
    hide HeaderLine, Find;
    if q < |t| {
      FindEmbeds(s, t, d, q, |t|, '\n');
      var f := Find(t, q, |t|, '\n');
      if f > q + 1 {
        var e := LineEnd(t, f);
        assert s[d + (f - 1)] == t[f - 1];
        HeaderLineEmbeds(s, t, d, q, e);
      }
    }
  }

  lemma NextLineShift(a: seq<char>, b: seq<char>, q: nat)
    requires q <= |b|
    ensures NextLine(a + b, |a| + q) == ShiftLine(NextLine(b, q), |a|)
  {
    hide NextLine, ShiftLine;
    NextLineEmbeds(a + b, b, |a|, q);
  }

  /** A field that ends before the end of the input is there whatever follows. */
  lemma NextLineInside(a: seq<char>, b: seq<char>, p: nat)
    requires p <= |a| && NextLine(a, p).Field? && NextLine(a, p).next <= |a|
    ensures NextLine(a + b, p) == NextLine(a, p)
  {
    hide HeaderLine;
    var f := Find(a, p, |a|, '\n');
    FindInside(a, b, p, '\n');
    HeaderLineEmbeds(a + b, a, 0, p, LineEnd(a, f));
  }

  /** A printed field is the next line. */
  lemma NextLinePrinted(s: seq<char>, p: nat, h: Header)
    requires HeaderOk(h)
    requires p + |PrintHeader(h)| <= |s|
    requires forall i | 0 <= i < |PrintHeader(h)| :: s[p + i] == PrintHeader(h)[i]
    ensures NextLine(s, p) == Field(h, p + |PrintHeader(h)|)
  {
    hide HeaderOk, HeaderLine;
    HeaderRoundTrip(s, p, h);
  }

  /** A field with free spaces and either line end is the next line. */
  lemma NextLineField(s: seq<char>, p: nat, f: FieldText, eol: seq<char>)
    requires FieldTextOk(f) && IsEol(eol) && At(s, p, FieldLine(f, eol))
    ensures NextLine(s, p) == Field(Meant(f, eol), p + |FieldLine(f, eol)|)
  {
    hide Find, HeaderLine, HeaderOk, FieldTextOk, FieldLine, Meant, IsEol;
    var t := FieldLine(f, eol);
    FieldFind(f, eol);
    FieldMeans(f, eol);
    FindEmbeds(s, t, p, 0, |t|, '\n');
    FindIs(s, p, |s|, '\n', p + |t| - 1);
    assert s[p + (|t| - 2)] == t[|t| - 2];
    HeaderLineEmbeds(s, t, p, 0, LineEnd(t, |t| - 1));
  }

  lemma NextLineEmpty(s: seq<char>, p: nat, eol: seq<char>)
    requires IsEol(eol) && At(s, p, eol)
    ensures NextLine(s, p) == Blank(p + |eol|)
  {
    AtIndex(s, p, eol, 0);
    AtIndex(s, p, eol, |eol| - 1);
    FindIs(s, p, |s|, '\n', p + |eol| - 1);
  }

  /** A line that is no field: without a colon, or with nothing but spaces on one side of its first one. */
  predicate NoField(line: seq<char>) {
    forall k | 0 <= k < |line| && line[k] == ':' && (forall i | 0 <= i < k :: line[i] != ':') ::
      IsGap(line[..k]) || IsGap(line[k + 1..])
  }

  /** What the line break leaves of a line: in front of a bare newline, a carriage return goes with it. */
  function LineText(line: seq<char>, eol: seq<char>): seq<char> {
    if eol == "\n" && line != [] && line[|line| - 1] == '\r' then line[..|line| - 1] else line
  }

  /** On exactly these ParseHeader throws or reads outside of the line. */
  lemma BrokenIff(s: seq<char>, p: nat, line: seq<char>, eol: seq<char>)
    requires (forall i | 0 <= i < |line| :: line[i] != '\n') && IsEol(eol) && |line| + |eol| > 2
    requires At(s, p, line + eol)
    ensures NextLine(s, p).Broken? <==> NoField(LineText(line, eol))
  {
    hide Find, HeaderLine, IsEol;
    var f := p + |line| + |eol| - 1;
    AtSplit(s, p, line, eol);
    LineBreak(s, p, line, eol);
    var e := LineEnd(s, f);
    AtSlice(s, p, line);
    assert s[p..e] == s[p..p + |line|][..e - p] == LineText(line, eol);
    NoFieldIff(s, p, e, LineText(line, eol));
  }

  lemma LineBreak(s: seq<char>, p: nat, line: seq<char>, eol: seq<char>)
    requires (forall i | 0 <= i < |line| :: line[i] != '\n') && IsEol(eol) && |line| + |eol| > 2
    requires At(s, p, line) && At(s, p + |line|, eol)
    ensures var f := p + |line| + |eol| - 1;
      && Find(s, p, |s|, '\n') == f
      && LineEnd(s, f) == p + |LineText(line, eol)|
  {
    var q := p + |line|;
    AtIndex(s, q, eol, 0);
    AtIndex(s, q, eol, |eol| - 1);
    forall i | p <= i < q + |eol| - 1 ensures s[i] != '\n' {
      if i < q {
        AtIndex(s, p, line, i - p);
      }
    }
    FindIs(s, p, |s|, '\n', q + |eol| - 1);
    if eol == "\n" {
      AtIndex(s, p, line, |line| - 1);
    }
  }

  lemma NoFieldIff(s: seq<char>, p: nat, e: nat, text: seq<char>)
    requires p <= e <= |s| && s[p..e] == text && forall i | 0 <= i < |text| :: text[i] != '\n'
    ensures HeaderLine(s, p, e).None? <==> NoField(text)
  {
    hide Find, TrimRight, SkipSpaces, IsGap, NoField;
    HeaderLineEmbeds(s, text, p, 0, |text|);
    var mid := Find(text, 0, |text|, ':');
    FirstColon(text, mid);
    if mid < |text| {
      GapIff(text, 0, mid, text[..mid]);
      GapIff(text, mid + 1, |text|, text[mid + 1..]);
    }
  }

  lemma FirstColon(text: seq<char>, mid: nat)
    requires mid <= |text| && (forall i | 0 <= i < mid :: text[i] != ':') && (mid < |text| ==> text[mid] == ':')
    ensures NoField(text) <==> mid < |text| ==> IsGap(text[..mid]) || IsGap(text[mid + 1..])
  {
    hide IsGap;
  }

  lemma GapIff(s: seq<char>, from: nat, end: nat, gap: seq<char>)
    requires from <= end <= |s| && s[from..end] == gap && forall i | 0 <= i < |gap| :: gap[i] != '\n'
    ensures IsGap(gap) <==> TrimRight(s, from, end) == from
    ensures IsGap(gap) <==> SkipSpaces(s, from, end) == end
  {
    forall i | from <= i < end ensures IsSpace(s[i]) <==> gap[i - from] in " \t\U{000B}\U{000C}\r" {
      assert s[from..end][i - from] == s[i];
      GapChar(s[i]);
    }
    forall i | 0 <= i < |gap| ensures gap[i] == s[from + i] {
    }
  }

  lemma GapChar(c: char)
    requires c != '\n'
    ensures IsSpace(c) <==> c in " \t\U{000B}\U{000C}\r"
  {
    var spaces := " \t\U{000B}\U{000C}\r";
    assert spaces == [' ', 9 as char, 11 as char, 12 as char, 13 as char];
    if IsSpace(c) {
      assert c == spaces[0] || c == spaces[1] || c == spaces[2] || c == spaces[3] || c == spaces[4];
    }
  }

  /** The fields of a header section, as they may be written. */
  function FieldLines(fs: seq<FieldText>, eol: seq<char>): seq<char> {
    if fs == [] then [] else FieldLine(fs[0], eol) + FieldLines(fs[1..], eol)
  }

  function AllMeant(fs: seq<FieldText>, eol: seq<char>): seq<Header> {
    if fs == [] then [] else [Meant(fs[0], eol)] + AllMeant(fs[1..], eol)
  }

  /** Parsed fields are well-formed. */
  lemma NextLineOk(s: seq<char>, p: nat)
    requires p <= |s| && NextLine(s, p).Field?
    ensures HeaderOk(NextLine(s, p).header)
  {
    hide HeaderOk, HeaderLine;
    var f := Find(s, p, |s|, '\n');
    ParsedHeaderOk(s, p, LineEnd(s, f));
  }

  // ---------- parts at positions ----------

  /** s has `part` at position p. */
  ghost predicate At(s: seq<char>, p: nat, part: seq<char>) {
    p + |part| <= |s| && forall i | 0 <= i < |part| :: s[p + i] == part[i]
  }

  lemma AtSelf(s: seq<char>)
    ensures At(s, 0, s)
  {
  }

  lemma AtIndex(s: seq<char>, p: nat, part: seq<char>, i: nat)
    requires At(s, p, part) && i < |part|
    ensures p + i < |s| && s[p + i] == part[i]
  {
  }

  lemma AtSlice(s: seq<char>, p: nat, part: seq<char>)
    requires At(s, p, part)
    ensures s[p..p + |part|] == part
  {
  }

  lemma AtSplit(s: seq<char>, p: nat, a: seq<char>, b: seq<char>)
    requires At(s, p, a + b)
    ensures At(s, p, a) && At(s, p + |a|, b)
  {
    assert forall i | 0 <= i < |a| :: (a + b)[i] == a[i];
    forall i | 0 <= i < |b| ensures s[p + |a| + i] == b[i] {
      assert (a + b)[|a| + i] == b[i];
      assert s[p + (|a| + i)] == (a + b)[|a| + i];
    }
  }

  /** s agrees with `part` from position p on, as far as s reaches. */
  ghost predicate Starts(s: seq<char>, p: nat, part: seq<char>) {
    forall i | 0 <= i < |part| && p + i < |s| :: s[p + i] == part[i]
  }

  lemma StartsCut(h: seq<char>, p: nat, part: seq<char>, k: nat)
    requires At(h, p, part) && k <= |h|
    ensures Starts(h[..k], p, part)
  {
  }

  lemma StartsWhole(s: seq<char>, p: nat, part: seq<char>)
    requires Starts(s, p, part) && p + |part| <= |s|
    ensures At(s, p, part)
  {
  }

  lemma StartsSplit(s: seq<char>, p: nat, a: seq<char>, b: seq<char>)
    requires Starts(s, p, a + b)
    ensures Starts(s, p, a) && Starts(s, p + |a|, b)
  {
    forall i | 0 <= i < |a| && p + i < |s| ensures s[p + i] == a[i] {
      assert (a + b)[i] == a[i];
    }
    forall i | 0 <= i < |b| && p + |a| + i < |s| ensures s[p + |a| + i] == b[i] {
      assert (a + b)[|a| + i] == b[i];
      assert s[p + (|a| + i)] == (a + b)[|a| + i];
    }
  }

  /** A line that the end of the input cuts off: one character is taken for a blank line, more of them for a
      field, if they parse as one, that ends behind the input. */
  lemma NextLineCut(s: seq<char>, p: nat, h: Header)
    requires HeaderOk(h) && Starts(s, p, PrintHeader(h)) && p < |s| < p + |PrintHeader(h)|
    ensures if |s| == p + 1 then NextLine(s, p) == Blank(|s| + 1)
            else NextLine(s, p).Broken? || (NextLine(s, p).Field? && NextLine(s, p).next == |s| + 1)
  {
    hide HeaderLine, HeaderOk, PrintHeader;
    var t := PrintHeader(h);
    PrintedLine(h);
    forall i | p <= i < |s| ensures s[i] != '\n' {
      assert s[p + (i - p)] == t[i - p];
    }
    FindIs(s, p, |s|, '\n', |s|);
  }

  lemma BlankCut(s: seq<char>, p: nat)
    requires Starts(s, p, "\r\n") && |s| == p + 1
    ensures NextLine(s, p) == Blank(p + 2)
  {
    assert s[p + 0] == "\r\n"[0];
    FindIs(s, p, |s|, '\n', |s|);
  }

  /** Position q of a printed header section is the beginning of a line: q == 0, or behind a field. */
  predicate LineStart(hs: seq<Header>, q: nat) {
    q == 0
    || (hs != [] && q >= |PrintHeader(hs[0])| && LineStart(hs[1..], q - |PrintHeader(hs[0])|))
  }

  lemma {:induction false} LineStartIs(hs: seq<Header>, q: nat)
    ensures LineStart(hs, q) <==> exists j | 0 <= j <= |hs| :: q == |PrintHeaders(hs[..j])|
    decreases hs
  {
    hide PrintHeader;
    assert PrintHeaders(hs[..0]) == [];
    forall j | 1 <= j <= |hs|
      ensures |PrintHeaders(hs[..j])| == |PrintHeader(hs[0])| + |PrintHeaders(hs[1..][..j - 1])|
    {
      assert hs[..j][1..] == hs[1..][..j - 1];
    }
    if hs != [] && q >= |PrintHeader(hs[0])| {
      var q1 := q - |PrintHeader(hs[0])|;
      LineStartIs(hs[1..], q1);
      if LineStart(hs[1..], q1) {
        var j :| 0 <= j <= |hs[1..]| && q1 == |PrintHeaders(hs[1..][..j])|;
        assert q == |PrintHeaders(hs[..j + 1])|;
      }
      if j :| 0 <= j <= |hs| && q == |PrintHeaders(hs[..j])| && j > 0 {
        assert q1 == |PrintHeaders(hs[1..][..j - 1])|;
      }
    }
  }

  lemma {:induction false} PrintHeadersSplit(hs: seq<Header>, j: nat)
    requires j < |hs|
    ensures PrintHeaders(hs) == PrintHeaders(hs[..j]) + (PrintHeader(hs[j]) + PrintHeaders(hs[j + 1..]))
    ensures !LineStart(hs, |PrintHeaders(hs[..j])| + 1)
    decreases j
  {
    hide PrintHeader;
    assert |PrintHeader(hs[0])| > 1 && |PrintHeader(hs[j])| > 1 by { FieldIsLong(hs[0]); FieldIsLong(hs[j]); }
    if j > 0 {
      PrintHeadersSplit(hs[1..], j - 1);
      assert hs[..j][1..] == hs[1..][..j - 1] && hs[1..][j..] == hs[j + 1..];
    } else {
      assert hs[..0] == [];
    }
  }

  lemma FieldIsLong(h: Header)
    ensures |PrintHeader(h)| >= 4
  {
  }

  /** Every position of a printed header section stands behind j whole fields, and less than one more. */
  lemma {:induction false} Landing(hs: seq<Header>, q: nat) returns (j: nat, off: nat)
    requires q < |PrintHeaders(hs)| + 2
    ensures j <= |hs| && |PrintHeaders(hs[..j])| <= |PrintHeaders(hs)| && q == |PrintHeaders(hs[..j])| + off
    ensures off < if j < |hs| then |PrintHeader(hs[j])| else 2
    decreases hs
  {
    hide PrintHeader;
    if hs == [] || q < |PrintHeader(hs[0])| {
      j, off := 0, q;
      assert hs[..0] == [];
    } else {
      j, off := Landing(hs[1..], q - |PrintHeader(hs[0])|);
      assert hs[..j + 1][1..] == hs[1..][..j];
      j := j + 1;
    }
  }

  lemma FieldsTakeRoom(hs: seq<Header>, i: nat, j: nat)
    requires i < j <= |hs|
    ensures |PrintHeaders(hs[..i])| + |PrintHeader(hs[i])| <= |PrintHeaders(hs[..j])|
  {
    hide PrintHeader;
    PrintHeadersSplit(hs[..j], i);
    assert hs[..j][..i] == hs[..i];
  }

  /** Behind no other number of whole fields. */
  lemma LandsOnce(hs: seq<Header>, j: nat, off: nat, i: nat)
    requires j <= |hs| && i <= |hs| && off < if j < |hs| then |PrintHeader(hs[j])| else 2
    requires |PrintHeaders(hs[..i])| == |PrintHeaders(hs[..j])| + off
    ensures i == j && off == 0
  {
    hide PrintHeader, PrintHeaders;
    if i < j {
      FieldsTakeRoom(hs, i, j);
      FieldIsLong(hs[i]);
    } else if j < i {
      FieldsTakeRoom(hs, j, i);
    }
  }

  /** What the first fields enter is part of the map they list. */
  lemma EnteredSoFar(hs: seq<Header>, m: map<seq<char>, seq<char>>, j: nat, k: seq<char>)
    requires Lists(hs, m) && j <= |hs| && k in Enter(map[], hs[..j])
    ensures k in m && Enter(map[], hs[..j])[k] == m[k]
  {
    EnterGives(map[], hs[..j]);
    var i :| 0 <= i < |hs[..j]| && hs[..j][i].key == k;
  }

  lemma BlankLine(s: seq<char>, p: nat)
    requires At(s, p, "\r\n")
    ensures NextLine(s, p) == Blank(p + 2)
  {
    AtIndex(s, p, "\r\n", 0);
    AtIndex(s, p, "\r\n", 1);
    FindIs(s, p, |s|, '\n', p + 1);
  }

  lemma HeadersListedOk(hs: seq<Header>, m: map<seq<char>, seq<char>>)
    requires Lists(hs, m) && HeadersOk(m)
    ensures forall i | 0 <= i < |hs| :: HeaderOk(hs[i])
  {
    hide HeaderOk;
    forall i | 0 <= i < |hs| ensures HeaderOk(hs[i]) {
      assert hs[i] == Header(hs[i].key, m[hs[i].key]);
    }
  }
}
