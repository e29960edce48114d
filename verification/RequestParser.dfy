/** The class RequestParser of src/http/HttpDef.h: the fields that parse updates in place. */
module RequestParsers {
  import opened Wrappers
  import opened HttpText
  import opened HttpRequest

  ghost function Prepend(t: seq<char>, rest: Option<seq<char>>): Option<seq<char>> {
    match rest
    case None => None
    case Some(u) => Some(t + u)
  }

  lemma PrependTwice(t: seq<char>, c: seq<char>, rest: Option<seq<char>>)
    ensures Prepend(t + c, rest) == Prepend(t, Prepend(c, rest))
  {
    if rest.Some? {
      assert t + c + rest.value == t + (c + rest.value);
    }
  }

  class RequestParser {
    var progress: Progress
    var bytes: nat
    var method_: Method
    var uri: seq<char>
    var query: seq<char>
    var major: nat
    var minor: nat
    var headers: map<seq<char>, seq<char>>

    ghost function View(): Parser
      reads this
    {
      Parser(progress, bytes, method_, uri, query, major, minor, headers)
    }

    constructor ()
      ensures View() == START
    {
      progress, bytes, method_ := ParsingMethod, 0, INVALID_METHOD;
      uri, query, major, minor, headers := [], [], 0, 0, map[];
    }

    method Clear()
      modifies this
      ensures View() == START
    {
      progress, bytes, method_ := ParsingMethod, 0, INVALID_METHOD;
      uri, query, major, minor, headers := [], [], 0, 0, map[];
    }

    /** The loop of ParseURI: `%XY` becomes one character. */
    method DecodeLoop(s: seq<char>, begin: nat, n: nat) returns (ok: bool, temp: seq<char>)
      requires begin <= n <= |s|
      ensures Decode(s, begin, n) == if ok then Some(temp) else None
    {
      temp := [];
      var i := begin;
      assert forall u: seq<char> {:trigger [] + u} :: [] + u == u;
      while i < n
        invariant begin <= i
        invariant Decode(s, begin, n) == Prepend(temp, Decode(s, i, n))
        decreases |s| - i
      {
        PrependTwice(temp, [s[i]], Decode(s, i + 1, n));
        if s[i] == '%' {
          if i + 2 >= |s| {
            return false, temp;
          }
          PrependTwice(temp, [ParseHex(s[i + 1], s[i + 2])], Decode(s, i + 3, n));
          temp := temp + [ParseHex(s[i + 1], s[i + 2])];
          i := i + 2;
        } else {
          temp := temp + [s[i]];
        }
        i := i + 1;
      }
      assert temp + [] == temp;
      ok := true;
    }

    /** The four stages of parse fall through into each other. */
    method Parse(s: seq<char>)
      modifies this
      ensures View() == HttpRequest.Parse(old(View()), s)
    {
      match progress {
        case ParsingMethod => ParseMethod(s);
        case ParsingURI => ParseURI(s, 0);
        case ParsingVersion => ParseVersion(s, 0);
        case ParsingHeaders => ParseHeaders(s, 0);
        case _ =>
      }
    }

    method ParseMethod(s: seq<char>)
      modifies this
      ensures View() == MethodStage(old(View()), s, 0)
    {
      hide UriStage;
      var finish := Find(s, 0, |s|, ' ');
      var m := MethodOf(s[0..finish]);
      if m == INVALID_METHOD {
        progress := InvalidMethod;
        return;
      }
      method_, progress := m, ParsingURI;
      bytes := bytes + finish + 1;
      ParseURI(s, finish + 1);
    }

    method ParseURI(s: seq<char>, begin: nat)
      modifies this
      ensures View() == UriStage(old(View()), s, begin)
    {
      hide VersionStage, Decode, UpToStop, AfterLastMark;
      if begin > |s| {
        progress := Undefined;
        return;
      }
      var finish := Find(s, begin, |s|, ' ');
      var ok, temp := DecodeLoop(s, begin, finish);
      if !ok {
        progress := Undefined;
        return;
      }
      var mark := AfterLastMark(temp);
      if mark.Some? {
        query := UpToStop(mark.value);
      }
      uri := UpToStop(temp);
      progress := ParsingVersion;
      bytes := bytes + finish + 1 - begin;
      ParseVersion(s, finish + 1);
    }

    method ParseVersion(s: seq<char>, begin: nat)
      modifies this
      ensures View() == VersionStage(old(View()), s, begin)
    {
      hide HeaderStage;
      if begin > |s| {
        progress := Undefined;
        return;
      }
      var finish := Find(s, begin, |s|, '\n');
      if finish == begin {
        progress := if begin == 0 || s[begin - 1] == '\r' then Undefined else InvalidVersion;
        return;
      }
      var version := s[begin..LineEnd(s, finish)];
      if version == "HTTP/1.1" {
        major, minor := 1, 1;
      } else if version == "HTTP/1.0" {
        major, minor := 1, 0;
      } else {
        progress := InvalidVersion;
        return;
      }
      progress := ParsingHeaders;
      bytes := bytes + finish + 1 - begin;
      ParseHeaders(s, finish + 1);
    }

    /** `while (begin != end)` */
    method ParseHeaders(s: seq<char>, begin0: nat)
      modifies this
      ensures View() == HeaderStage(old(View()), s, begin0)
    {
      hide NextLine;
      var begin := begin0;
      while begin != |s|
        invariant HeaderStage(View(), s, begin) == HeaderStage(old(View()), s, begin0)
        decreases |s| + 1 - begin
      {
        if begin > |s| {
          progress := Undefined;
          return;
        }
        var line := NextLine(s, begin);
        if line.Blank? {
          progress, bytes := Good, bytes + line.next - begin;
          return;
        } else if line.Broken? {
          progress := Undefined;
          return;
        }
        headers := headers[line.header.key := line.header.value];
        bytes := bytes + line.next - begin;
        begin := line.next;
      }
    }
  }
}
