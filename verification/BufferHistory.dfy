/** Histories of operations on any number of buffers (src/Buffer.cpp): each buffer is a byte sequence of its own. */
module BufferHistories {
  import opened Buffers

  /** An operation on one buffer, or on one with another as its argument. */
  datatype Op =
    | OpAppend(bytes: seq<char>)
    | OpAppendString(str: seq<char>)
    | OpAppendBuffer
    | OpExtend(bytes: seq<char>)     // readv writes behind the window, then append(off_t)
    | OpPrepend(bytes: seq<char>)
    | OpPrependString(str: seq<char>)
    | OpPrependBuffer
    | OpRetrieve(len: nat)
    | OpTake(len: nat)               // retriveveAsString
    | OpClear
    | OpReserve(minSize: nat)
    | OpResize(minSize: nat)
    | OpDeepCopy
    | OpSwap

  /** Buffer i performs op, with buffer j as its argument. */
  datatype Call = Call(i: nat, j: nat, op: Op)

  /** Whether the operation on s, with the argument d, returns without a failing assertion, without leaving the
      storage and without reading what has moved or been freed; own says that the argument is the buffer itself. */
  predicate Works(s: Window, d: Window, own: bool, op: Op) {
    match op
    case OpAppend(bytes) => bytes != []
    case OpAppendBuffer => !own || s.bytes == [] || |s.bytes| <= Room(s) || 2 * |s.bytes| <= s.left
    case OpExtend(bytes) => |bytes| <= Room(s)
    case OpPrepend(bytes) => bytes != [] && Fits(s, |bytes|)
    case OpPrependString(str) => Fits(s, |str| + 1)
    case OpPrependBuffer => d.bytes != [] && (s.left >= |d.bytes| || (!own && Fits(s, |d.bytes|)))
    case OpTake(_) => s.bytes != []
    case OpReserve(minSize) => s.capacity > 0 || minSize == 0
    case _ => true
  }

  /** How many bytes retriveveAsString(len) takes. */
  function TakeCount(c: seq<char>, len: nat): (n: nat)
    ensures n <= |c|
  {
    if len == 0 || len > |c| then |c| else len
  }

  /** What an operation other than swap means for the contents c of the buffer; d are those of the argument. */
  function Meaning(c: seq<char>, d: seq<char>, op: Op): seq<char> {
    match op
    case OpAppend(bytes) => c + bytes
    case OpAppendString(str) => c + str + ['\0']
    case OpAppendBuffer => c + d
    case OpExtend(bytes) => c + bytes
    case OpPrepend(bytes) => bytes + c
    case OpPrependString(str) => str + ['\0'] + c
    case OpPrependBuffer => d + c
    case OpRetrieve(len) => Drop(c, len)
    case OpTake(len) => c[TakeCount(c, len)..]
    case OpClear => []
    case OpDeepCopy => d
    case _ => c
  }

  /** Where it leaves the bytes, and in how large a storage. */
  function Moves(s: Window, d: Window, own: bool, op: Op): Window
    requires Works(s, d, own, op)
  {
    match op
    case OpAppend(bytes) => Appended(s, bytes)
    case OpAppendString(str) => Appended(s, str + ['\0'])
    case OpAppendBuffer => if d.bytes == [] then s else Appended(s, d.bytes)
    case OpExtend(bytes) => s.(bytes := s.bytes + bytes)
    case OpPrepend(bytes) => Prepended(s, bytes)
    case OpPrependString(str) => Prepended(s, str + ['\0'])
    case OpPrependBuffer => Prepended(s, d.bytes)
    case OpRetrieve(len) => Retrieved(s, len)
    case OpTake(len) => Retrieved(s, TakeCount(s.bytes, len))
    case OpClear => Cleared(s)
    case OpReserve(minSize) => Reserved(s, minSize)
    case OpResize(minSize) => Resized(s, minSize)
    case OpDeepCopy => if own then s else Copied(s, d.bytes)
    case OpSwap => d
  }

  /** Whatever is moved where, the bytes are those that the operation means. */
  lemma MovesMeans(s: Window, d: Window, own: bool, op: Op)
    requires Works(s, d, own, op) && !op.OpSwap? && (own ==> d == s)
    ensures Moves(s, d, own, op).bytes == Meaning(s.bytes, d.bytes, op)
  {
    hide Doubled, Appended, Prepended, Copied, Retrieved;
    if op.OpAppendString? {
      assert s.bytes + (op.str + ['\0']) == s.bytes + op.str + ['\0'];
    }
  }

  /** The string that an operation returns, as a list of none or one. */
  function Output(c: seq<char>, op: Op): seq<seq<char>> {
    if op.OpTake? then [c[..TakeCount(c, op.len)]] else []
  }

  /** The kernel writes bytes behind the window, and append(off_t) takes them in. */
  method Received(b: Buffer, bytes: seq<char>)
    requires b.Valid() && |bytes| <= b.Available()
    modifies b`right, b.data
    ensures b.Valid() && b.View() == old(b.View()).(bytes := old(b.Contents()) + bytes)
  {
    forall k | 0 <= k < |bytes| {
      b.data[b.right + k] := bytes[k];
    }
    assert b.data[b.right..b.right + |bytes|] == bytes;
    assert b.data[b.left..b.right] == old(b.data[b.left..b.right]);
    b.Extend(|bytes|);
  }

  predicate IsAppend(op: Op) {
    op.OpAppend? || op.OpAppendString? || op.OpAppendBuffer? || op.OpExtend?
  }

  predicate IsPrepend(op: Op) {
    op.OpPrepend? || op.OpPrependString? || op.OpPrependBuffer?
  }

  /** append, in all its overloads. */
  method ActBehind(b: Buffer, that: Buffer, op: Op) returns (ok: bool)
    requires b.Valid() && that.Valid() && (that != b ==> that.data != b.data)
    requires IsAppend(op)
    modifies b, b.data
    ensures b.Valid() && (b.data == old(b.data) || fresh(b.data))
    ensures ok <==> old(Works(b.View(), that.View(), b == that, op))
    ensures ok ==> b.View() == old(Moves(b.View(), that.View(), b == that, op))
    ensures !ok ==> b.Contents() == old(b.Contents())
  {
    hide Appended;
    ok := true;
    match op {
      case OpAppend(bytes) =>
        ok := bytes != [];
        if ok {
          b.Append(bytes);
        }
      case OpAppendString(str) => b.AppendString(str);
      case OpAppendBuffer => ok := b.AppendBuffer(that);
      case OpExtend(bytes) =>
        ok := |bytes| <= b.data.Length - b.right;
        if ok {
          Received(b, bytes);
        }
    }
  }

  /** prepend, in all its overloads. */
  method ActInFront(b: Buffer, that: Buffer, op: Op) returns (ok: bool)
    requires b.Valid() && that.Valid() && (that != b ==> that.data != b.data)
    requires IsPrepend(op)
    modifies b, b.data
    ensures b.Valid() && (b.data == old(b.data) || fresh(b.data))
    ensures ok <==> old(Works(b.View(), that.View(), b == that, op))
    ensures ok ==> b.View() == old(Moves(b.View(), that.View(), b == that, op))
    ensures !ok ==> b.Contents() == old(b.Contents())
  {
    hide Prepended;
    ok := false;
    match op {
      case OpPrepend(bytes) =>
        if bytes != [] {
          ok := b.Prepend(bytes);
        }
      case OpPrependString(str) => ok := b.Prepend(str + ['\0']);
      case OpPrependBuffer => ok := b.PrependBuffer(that);
    }
  }

  /** One operation other than swap. */
  method Act(b: Buffer, that: Buffer, op: Op) returns (ok: bool, taken: seq<seq<char>>)
    requires b.Valid() && that.Valid() && (that != b ==> that.data != b.data) && !op.OpSwap?
    modifies b, b.data
    ensures b.Valid() && (b.data == old(b.data) || fresh(b.data))
    ensures ok <==> old(Works(b.View(), that.View(), b == that, op))
    ensures ok ==> b.View() == old(Moves(b.View(), that.View(), b == that, op))
    ensures !ok ==> b.Contents() == old(b.Contents())
    ensures ok ==> taken == Output(old(b.Contents()), op)
  {
    hide Appended, Prepended, Copied, Retrieved, Reserved, Resized, Cleared, Fits;
    ok, taken := true, [];
    if IsPrepend(op) {
      ok := ActInFront(b, that, op);
      return;
    } else if IsAppend(op) {
      ok := ActBehind(b, that, op);
      return;
    }
    match op {
      case OpRetrieve(len) => b.Retrieve(len);
      case OpTake(len) =>
        ok := !b.Empty();
        if ok {
          var s := b.RetrieveAsString(len);
          taken := [s];
        }
      case OpClear => b.Clear();
      case OpReserve(minSize) =>
        ok := b.data.Length > 0 || minSize == 0;
        if ok {
          b.Reserve(minSize);
        }
      case OpResize(minSize) => b.Resize(minSize);
      case OpDeepCopy => b.DeepCopy(that);
    }
  }

  // ---------- several buffers ----------

  /** The buffers are distinct objects, and no two of them share their storage. */
  ghost predicate Separate(bs: seq<Buffer>)
    reads bs
  {
    && (forall i | 0 <= i < |bs| :: bs[i].Valid())
    && (forall i, j | 0 <= i < j < |bs| :: bs[i] != bs[j] && bs[i].data != bs[j].data)
  }

  ghost function Storages(bs: seq<Buffer>): set<object>
    reads bs
  {
    set i | 0 <= i < |bs| :: bs[i].data
  }

  ghost function Views(bs: seq<Buffer>): (ws: seq<Window>)
    requires Separate(bs)
    reads bs, Storages(bs)
    ensures |ws| == |bs|
  {
    seq(|bs|, i requires 0 <= i < |bs| && bs[i].Valid() reads bs, Storages(bs) => bs[i].View())
  }

  function Contents(ws: seq<Window>): (cs: seq<seq<char>>)
    ensures |cs| == |ws|
  {
    seq(|ws|, i requires 0 <= i < |ws| => ws[i].bytes)
  }

  /** Whether a call works, and where it leaves the bytes of all buffers. */
  predicate CallWorks(ws: seq<Window>, call: Call)
    requires call.i < |ws| && call.j < |ws|
  {
    Works(ws[call.i], ws[call.j], call.i == call.j, call.op)
  }

  function After(ws: seq<Window>, call: Call): (r: seq<Window>)
    requires call.i < |ws| && call.j < |ws| && CallWorks(ws, call)
    ensures |r| == |ws|
  {
    var moved := ws[call.i := Moves(ws[call.i], ws[call.j], call.i == call.j, call.op)];
    if call.op.OpSwap? then moved[call.j := ws[call.i]] else moved
  }

  /** What a call means for the contents of all buffers. */
  function Meant(cs: seq<seq<char>>, call: Call): (r: seq<seq<char>>)
    requires call.i < |cs| && call.j < |cs|
    ensures |r| == |cs|
  {
    if call.op.OpSwap? then cs[call.i := cs[call.j]][call.j := cs[call.i]]
    else cs[call.i := Meaning(cs[call.i], cs[call.j], call.op)]
  }

  lemma AfterMeans(ws: seq<Window>, call: Call)
    requires call.i < |ws| && call.j < |ws| && CallWorks(ws, call)
    ensures Contents(After(ws, call)) == Meant(Contents(ws), call)
  {
    hide Works, Moves, Meaning;
    if !call.op.OpSwap? {
      MovesMeans(ws[call.i], ws[call.j], call.i == call.j, call.op);
    } else {
      SwapMoves(ws[call.i], ws[call.j], call.i == call.j);
    }
  }

  lemma SwapMoves(s: Window, d: Window, own: bool)
    ensures Works(s, d, own, OpSwap) && Moves(s, d, own, OpSwap) == d
  {
  }

  /** Only buffer i changed, and its storage is its own or a new one. */
  method RunSingle(bs: seq<Buffer>, call: Call) returns (ok: bool, taken: seq<seq<char>>)
    requires Separate(bs) && call.i < |bs| && call.j < |bs| && !call.op.OpSwap?
    modifies bs[call.i], bs[call.i].data
    ensures Separate(bs) && (bs[call.i].data == old(bs[call.i].data) || fresh(bs[call.i].data))
    ensures ok <==> CallWorks(old(Views(bs)), call)
    ensures ok ==> Views(bs) == After(old(Views(bs)), call)
    ensures !ok ==> Contents(Views(bs)) == Contents(old(Views(bs)))
    ensures ok ==> taken == Output(old(Views(bs))[call.i].bytes, call.op)
  {
    hide Works, Moves, Output;
    var b, that := bs[call.i], bs[call.j];
    ghost var ws := Views(bs);
    ok, taken := Act(b, that, call.op);
    forall k | 0 <= k < |bs| && k != call.i ensures bs[k].View() == ws[k] {
    }
    assert Views(bs)[call.i] == b.View();
  }

  method RunSwap(bs: seq<Buffer>, call: Call)
    requires Separate(bs) && call.i < |bs| && call.j < |bs| && call.op.OpSwap?
    modifies bs[call.i], bs[call.j]
    ensures Separate(bs) && forall i | 0 <= i < |bs| :: bs[i].data in old(Storages(bs))
    ensures CallWorks(old(Views(bs)), call) && Views(bs) == After(old(Views(bs)), call)
  {
    hide Storages, Works, Moves;
    StoragesHave(bs);
    ghost var ws := Views(bs);
    SwapMoves(ws[call.i], ws[call.j], call.i == call.j);
    var b, that := bs[call.i], bs[call.j];
    b.Swap(that);
    assert Separate(bs);
    assert b.View() == ws[call.j] && that.View() == ws[call.i];
    forall k | 0 <= k < |bs| && k != call.i && k != call.j ensures bs[k].View() == ws[k] {
    }
  }

  lemma StoragesHave(bs: seq<Buffer>)
    ensures forall i | 0 <= i < |bs| :: bs[i].data in Storages(bs)
  {
  }

  /** Every storage is one of the old ones or a new one. */
  method RunCall(bs: seq<Buffer>, call: Call) returns (ok: bool, taken: seq<seq<char>>)
    requires Separate(bs) && call.i < |bs| && call.j < |bs|
    modifies bs, Storages(bs)
    ensures Separate(bs) && forall o | o in Storages(bs) :: o in old(Storages(bs)) || fresh(o)
    ensures ok <==> CallWorks(old(Views(bs)), call)
    ensures ok ==> Views(bs) == After(old(Views(bs)), call)
    ensures !ok ==> Contents(Views(bs)) == Contents(old(Views(bs)))
    ensures ok ==> taken == Output(old(Views(bs))[call.i].bytes, call.op)
  {
    hide CallWorks, After;
    if call.op.OpSwap? {
      RunSwap(bs, call);
      ok, taken := true, [];
    } else {
      hide Output;
      ok, taken := RunSingle(bs, call);
    }
  }

  // ---------- histories ----------

  /** Every call names buffers that there are. */
  predicate InRange(n: nat, calls: seq<Call>) {
    forall k | 0 <= k < |calls| :: calls[k].i < n && calls[k].j < n
  }

  /** Every call works where the calls before it have left the bytes. */
  predicate AllWork(ws: seq<Window>, calls: seq<Call>)
    requires InRange(|ws|, calls)
    decreases |calls|, 0
  {
    calls == []
    || (AllWork(ws, calls[..|calls| - 1]) && CallWorks(AfterAll(ws, calls[..|calls| - 1]), calls[|calls| - 1]))
  }

  /** Where a history leaves the bytes. */
  function AfterAll(ws: seq<Window>, calls: seq<Call>): (r: seq<Window>)
    requires InRange(|ws|, calls) && AllWork(ws, calls)
    ensures |r| == |ws|
    decreases |calls|, 1
  {
    if calls == [] then ws else After(AfterAll(ws, calls[..|calls| - 1]), calls[|calls| - 1])
  }

  /** What a history means for the contents of all buffers, and the strings it returns. */
  function MeantAll(cs: seq<seq<char>>, calls: seq<Call>): (r: seq<seq<char>>)
    requires InRange(|cs|, calls)
    ensures |r| == |cs|
  {
    if calls == [] then cs else Meant(MeantAll(cs, calls[..|calls| - 1]), calls[|calls| - 1])
  }

  function Outputs(cs: seq<seq<char>>, calls: seq<Call>): seq<seq<char>>
    requires InRange(|cs|, calls)
  {
    if calls == [] then []
    else
      var before, last := calls[..|calls| - 1], calls[|calls| - 1];
      Outputs(cs, before) + Output(MeantAll(cs, before)[last.i], last.op)
  }

  /** Wherever the bytes are moved in a history that works, the contents are what the calls mean. */
  lemma {:induction false} AfterAllMeans(ws: seq<Window>, calls: seq<Call>)
    requires InRange(|ws|, calls) && AllWork(ws, calls)
    ensures Contents(AfterAll(ws, calls)) == MeantAll(Contents(ws), calls)
    decreases |calls|
  {
    hide CallWorks, After, Meant, Contents;
    if calls != [] {
      AfterAllMeans(ws, calls[..|calls| - 1]);
      AfterMeans(AfterAll(ws, calls[..|calls| - 1]), calls[|calls| - 1]);
    }
  }

  lemma NoCalls(ws: seq<Window>)
    ensures AllWork(ws, []) && AfterAll(ws, []) == ws && Outputs(Contents(ws), []) == []
  {
  }

  lemma OneMore(ws: seq<Window>, calls: seq<Call>, n: nat)
    requires n < |calls| && InRange(|ws|, calls) && AllWork(ws, calls[..n])
    requires CallWorks(AfterAll(ws, calls[..n]), calls[n])
    ensures AllWork(ws, calls[..n + 1])
    ensures AfterAll(ws, calls[..n + 1]) == After(AfterAll(ws, calls[..n]), calls[n])
    ensures Outputs(Contents(ws), calls[..n + 1])
         == Outputs(Contents(ws), calls[..n]) + Output(AfterAll(ws, calls[..n])[calls[n].i].bytes, calls[n].op)
  {
    hide CallWorks, After, Output;
    assert calls[..n + 1][..n] == calls[..n];
    AfterAllMeans(ws, calls[..n]);
  }

  /** Over every history of calls on any number of buffers, appending, prepending and copying between them, swapping
      them, taking strings out and reading in: the storages stay disjoint, every buffer is the byte sequence that
      the calls describe, and so are the strings. The history stops only at a call that does not work where the
      calls before it have left the bytes. */
  method RunCalls(bs: seq<Buffer>, calls: seq<Call>) returns (done: nat, taken: seq<seq<char>>)
    requires Separate(bs) && InRange(|bs|, calls)
    modifies bs, Storages(bs)
    ensures Separate(bs) && done <= |calls| && AllWork(old(Views(bs)), calls[..done])
    ensures done < |calls| ==> !CallWorks(AfterAll(old(Views(bs)), calls[..done]), calls[done])
    ensures done == |calls| ==> Views(bs) == AfterAll(old(Views(bs)), calls[..done])
    ensures Contents(Views(bs)) == MeantAll(Contents(old(Views(bs))), calls[..done])
    ensures taken == Outputs(Contents(old(Views(bs))), calls[..done])
  {
    hide CallWorks, After, Output, MeantAll, Outputs, Separate, Storages, Contents, AllWork, AfterAll;
    done, taken := 0, [];
    ghost var ws, old0 := Views(bs), Storages(bs);
    NoCalls(ws);
    assert calls[..0] == [];
    while done < |calls|
      invariant Separate(bs) && done <= |calls|
      invariant forall o | o in Storages(bs) :: o in old0 || fresh(o)
      invariant AllWork(ws, calls[..done]) && Views(bs) == AfterAll(ws, calls[..done])
      invariant taken == Outputs(Contents(ws), calls[..done])
    {
      var ok, out := RunCall(bs, calls[done]);
      if !ok {
        AfterAllMeans(ws, calls[..done]);
        return;
      }
      OneMore(ws, calls, done);
      taken := taken + out;
      done := done + 1;
    }
    AfterAllMeans(ws, calls[..done]);
  }
}
