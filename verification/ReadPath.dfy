/** Connection::handleReadEvent (src/Connection.cpp): one readv into the read buffer and a spill area. */
module ReadPath {
  import opened Buffers

  const EXTRA := 16384   // sizeof(extraBuffer)

  /** What readv returned: a positive number of bytes, 0 at the end of the stream, or an error. */
  datatype ReadResult = Incoming(bytes: seq<char>) | Again | EndOrError

  /** What the event does next: call the read callback, nothing, or handleErroEvent. */
  datatype Next = Callback | Nothing | HandleError

  /** What the kernel does with `incoming`: it fills the free end of the buffer first, then the spill area. */
  method ReadV(b: Buffer, incoming: seq<char>) returns (extra: seq<char>)
    requires b.Valid() && |incoming| <= b.Available() + EXTRA
    modifies b.data
    ensures b.Contents() == old(b.Contents())
    ensures var n := if |incoming| <= b.Available() then |incoming| else b.Available();
      b.data[b.right..b.right + n] + extra == incoming
    ensures |incoming| <= b.Available() ==> extra == []
  {
    var n := if |incoming| <= b.Available() then |incoming| else b.Available();
    var head := incoming[..n];
    extra := incoming[n..];
    assert head + extra == incoming;
    forall i | 0 <= i < n {
      b.data[b.right + i] := head[i];
    }
    assert forall i | 0 <= i < n :: b.data[b.right..b.right + n][i] == head[i];
    assert b.data[b.right..b.right + n] == head;
    assert b.data[b.left..b.right] == old(b.data[b.left..b.right]);
  }

  /** The buffer grows by exactly the bytes that readv returned, however they were split, and the callback is
      called for nothing else. */
  method HandleReadEvent(b: Buffer, res: ReadResult) returns (next: Next)
    requires b.Valid()
    requires res.Incoming? ==> 0 < |res.bytes| <= b.Available() + 16384
    modifies b, b.data
    ensures b.Valid() && (b.data == old(b.data) || fresh(b.data))
    ensures b.Contents() == old(b.Contents()) + if res.Incoming? then res.bytes else []
    ensures next == match res case Incoming(_) => Callback case Again => Nothing case EndOrError => HandleError
  {
    match res {
      case Incoming(incoming) =>
        TakeIn(b, incoming);
        next := Callback;
      case Again => next := Nothing;
      case EndOrError => next := HandleError;
    }
  }

  method TakeIn(b: Buffer, incoming: seq<char>)
    requires b.Valid() && 0 < |incoming| <= b.Available() + EXTRA
    modifies b, b.data
    ensures b.Valid() && (b.data == old(b.data) || fresh(b.data))
    ensures b.Contents() == old(b.Contents()) + incoming
  {
    hide Appended;
    var len := b.Available();
    ghost var c := b.Contents();
    var extra := ReadV(b, incoming);
    ghost var head := b.data[b.right..b.right + if |incoming| > len then len else |incoming|];
    Regroup(c, head, extra);
    if |incoming| > len {
      b.Extend(len);
      b.Append(extra);
    } else {
      b.Extend(|incoming|);
    }
  }

  lemma Regroup(a: seq<char>, b: seq<char>, c: seq<char>)
    ensures a + b + c == a + (b + c) && (c == [] ==> b + c == b)
  {
  }
}
