/** The byte buffer of src/Buffer.cpp: a window [left, right) on a heap-allocated array. */
module Buffers {

  /** The doubling loop of reserve, from the first doubled capacity on. */
  function Doubled(cap: nat, minSize: nat): (r: nat)
    requires cap > 0
    ensures r >= cap && r >= minSize
    decreases minSize - cap
  {
    if cap >= minSize then cap else Doubled(2 * cap, minSize)
  }

  function DoubledTimes(cap: nat, k: nat): nat
    decreases k
  {
    if k == 0 then cap else DoubledTimes(2 * cap, k - 1)
  }

  /** The capacity is doubled as often as is needed, and not once more. */
  lemma {:induction false} DoublesUntilEnough(cap: nat, minSize: nat) returns (k: nat)
    requires cap > 0
    ensures Doubled(cap, minSize) == DoubledTimes(cap, k) >= minSize
    ensures k > 0 ==> DoubledTimes(cap, k - 1) < minSize
    decreases minSize - cap
  {
    if cap >= minSize {
      k := 0;
    } else {
      k := DoublesUntilEnough(2 * cap, minSize);
      k := k + 1;
    }
  }

  /** What retrieve(n) leaves: all but the first n bytes, or nothing. */
  function Drop(bytes: seq<char>, n: nat): seq<char> {
    if n > |bytes| then [] else bytes[n..]
  }

  /** The bytes s after a memmove of n of them from src to dst. */
  function Moved(s: seq<char>, dst: nat, src: nat, n: nat): (m: seq<char>)
    requires src + n <= |s| && dst + n <= |s|
    ensures |m| == |s|
  {
    s[..dst] + s[src..src + n] + s[dst + n..]
  }

  lemma MovedOntoItself(s: seq<char>, i: nat, n: nat)
    requires i + n <= |s|
    ensures Moved(s, i, i, n) == s
  {
  }

  /** Bytes that stand far enough behind the place they are moved to are still there. */
  lemma MovedLeavesSource(s: seq<char>, src: nat, n: nat)
    requires n <= src && src + n <= |s|
    ensures Moved(s, 0, src, n)[src..src + n] == s[src..src + n]
  {
  }

  /** A buffer by value: where its bytes stand in a storage of the given capacity. */
  datatype Slot = Slot(left: nat, bytes: seq<char>, capacity: nat)

  type Window = s: Slot | s.left + |s.bytes| <= s.capacity witness Slot(0, [], 0)

  function Room(s: Window): nat {
    s.capacity - s.left - |s.bytes|
  }

  function Cleared(s: Window): Window {
    Slot(0, [], s.capacity)
  }

  function Resized(s: Window, minSize: nat): Window {
    if minSize < s.capacity then s else s.(capacity := minSize)
  }

  function Reserved(s: Window, minSize: nat): Window
    requires s.capacity > 0 || minSize == 0
  {
    if minSize < s.capacity || s.capacity == 0 then s else s.(capacity := Doubled(2 * s.capacity, minSize))
  }

  /** A non-empty buffer before len bytes are copied behind its window: they fit there, or in the storage once the
      window has moved to its front, or a larger storage takes over. */
  function MadeRoom(s: Window, len: nat): (t: Window)
    requires s.bytes != []
    ensures Room(t) >= len && t.bytes == s.bytes
  {
    if Room(s) >= len then s
    else if len + |s.bytes| <= s.capacity then s.(left := 0)
    else Reserved(s, |s.bytes| + len + s.left)
  }

  /** What append leaves: an empty buffer gets an exactly fitting storage. */
  function Appended(s: Window, buf: seq<char>): (t: Window)
    ensures t.bytes == s.bytes + buf
  {
    if s.bytes == [] then Slot(0, buf, |buf|) else MadeRoom(s, |buf|).(bytes := s.bytes + buf)
  }

  lemma AppendedSlots(s: Window, buf: seq<char>)
    ensures s.bytes == [] ==> Appended(s, buf) == Slot(0, buf, |buf|)
    ensures s.bytes != [] ==> Appended(s, buf) == MadeRoom(s, |buf|).(bytes := s.bytes + buf)
  {
  }

  /** Whether len bytes fit in front of the window, or in the storage once it has moved. */
  predicate Fits(s: Window, len: nat) {
    s.left >= len || len + |s.bytes| <= s.capacity
  }

  function MadeRoomInFront(s: Window, len: nat): (t: Window)
    requires Fits(s, len)
    ensures t.left >= len && t.bytes == s.bytes
  {
    if s.left >= len then s else s.(left := len)
  }

  function Prepended(s: Window, buf: seq<char>): (t: Window)
    requires Fits(s, |buf|)
    ensures t.bytes == buf + s.bytes
  {
    var t := MadeRoomInFront(s, |buf|);
    Slot(t.left - |buf|, buf + s.bytes, s.capacity)
  }

  /** What retrieve(n) leaves. */
  function Retrieved(s: Window, n: nat): (t: Window)
    ensures t.bytes == Drop(s.bytes, n)
  {
    if s.bytes == [] then s
    else if n > |s.bytes| then Cleared(s)
    else Slot(s.left + n, s.bytes[n..], s.capacity)
  }

  function Copied(s: Window, bytes: seq<char>): (t: Window)
    ensures t.bytes == bytes
  {
    if bytes == [] then Cleared(s) else Slot(0, bytes, |bytes|)
  }

  /** memcpy is defined only for regions that do not overlap. */
  predicate Apart(a: nat, b: nat, n: nat) {
    a + n <= b || b + n <= a
  }

  class Buffer {
    var data: array<char>   // buffer_; its length is capacity_
    var left: nat
    var right: nat
    ghost var copied: nat   // bytes that resize has moved into this storage so far

    ghost predicate Valid()
      reads this
    {
      left <= right <= data.Length
    }

    /** The bytes the buffer stands for. */
    ghost function Contents(): (s: seq<char>)
      requires Valid()
      reads this, data
      ensures |s| == right - left
    {
      data[left..right]
    }

    ghost function View(): Window
      requires Valid()
      reads this, data
    {
      Slot(left, Contents(), data.Length)
    }

    /** Buffer(length), and Buffer() for length 0. */
    constructor (length: nat)
      ensures Valid() && fresh(data) && data.Length == length
      ensures Contents() == [] && copied == 0
      ensures left == 0
    {
      data := new char[length];
      left, right, copied := 0, 0, 0;
    }

    /** Buffer(const char *, off_t): exactly as large as its contents. */
    constructor FromBytes(bytes: seq<char>)
      ensures Valid() && fresh(data) && data.Length == |bytes|
      ensures Contents() == bytes && copied == 0
      ensures left == 0
    {
      data := new char[|bytes|](i requires 0 <= i < |bytes| => bytes[i]);
      left, right, copied := 0, |bytes|, 0;
    }

    function Size(): nat
      requires Valid()
      reads this
    {
      right - left
    }

    predicate Empty()
      reads this
    {
      left == right
    }

    function Available(): nat
      requires Valid()
      reads this
    {
      data.Length - right
    }

    method Swap(that: Buffer)
      requires Valid() && that.Valid()
      modifies this, that
      ensures Valid() && that.Valid()
      ensures data == old(that.data) && left == old(that.left) && right == old(that.right)
      ensures that.data == old(data) && that.left == old(left) && that.right == old(right)
      ensures copied == old(that.copied) && that.copied == old(copied)
    {
      that.data, data := data, that.data;
      that.left, left := left, that.left;
      that.right, right := right, that.right;
      that.copied, copied := copied, that.copied;
    }

    /** memmove within the storage. */
    method MoveBytes(dst: nat, src: nat, n: nat)
      requires src + n <= data.Length && dst + n <= data.Length
      modifies data
      ensures data[..] == Moved(old(data[..]), dst, src, n)
    {
      var moved := data[src..src + n];
      forall i | 0 <= i < n {
        data[dst + i] := moved[i];
      }
    }

    /** The whole window moves. */
    method Shift(dst: nat)
      requires Valid() && dst + Size() <= data.Length
      modifies this`left, this`right, data
      ensures Valid() && left == dst
      ensures Contents() == old(Contents())
      ensures data[..] == Moved(old(data[..]), dst, old(left), Size())
    {
      var n := right - left;
      MoveBytes(dst, left, n);
      assert data[..][dst..dst + n] == old(data[..])[left..right];
      left, right := dst, dst + n;
    }

    /** forward(offset). The last branch copies from behind the window's middle, and what it copies may lie
        outside the storage (not ok); the others keep the contents, or drop all of them. */
    method Forward(offset: nat) returns (ok: bool)
      requires Valid()
      modifies this`left, this`right, data
      ensures Valid()
      ensures ok <==> offset <= old(left) || offset >= old(right) || 2 * (old(right) - offset) <= data.Length
      ensures ok ==>
        if offset == 0 then
          left == 0 && Contents() == old(Contents()) && data[..] == Moved(old(data[..]), 0, old(left), Size())
        else if offset >= old(right) then left == 0 && Contents() == []
        else if offset <= old(left) then left == old(left) - offset && Contents() == old(Contents())
        else left == 0 && Contents() == old(data[..])[old(right) - offset..2 * (old(right) - offset)]
    {
      ok := true;
      if offset == 0 {
        if left == 0 {
          MovedOntoItself(data[..], 0, right);
          return;
        }
        Shift(0);
      } else if offset >= right {
        left, right := 0, 0;
      } else if offset <= left {
        Shift(left - offset);
      } else {
        var n := right - offset;
        if 2 * n > data.Length {
          return false;
        }
        MoveBytes(0, n, n);
        left, right := 0, n;
        assert data[..][0..n] == old(data[..])[n..2 * n];
      }
    }

    /** backward(offset). backward(0) and the last branch move as many bytes as there is room, and not the window;
        backward(0) may write behind the storage (not ok). */
    method Backward(offset: nat) returns (ok: bool)
      requires Valid()
      modifies this`left, this`right, data
      ensures Valid()
      ensures ok <==> offset > 0 || data.Length - old(right) <= old(Size())
      ensures ok ==>
        if offset == 0 then
          left == old(left) + data.Length - old(right)
          && Contents() == Moved(old(data[..]), left, old(left), data.Length - old(right))[left..]
        else if offset >= data.Length - old(left) then left == data.Length && Contents() == []
        else if offset <= data.Length - old(right) then
          left == old(left) + offset && Contents() == old(Contents())
        else
          left == data.Length - offset
          && Contents() == Moved(old(data[..]), old(left) + offset, old(left), left - old(left))[left..]
    {
      hide Moved;
      ok := true;
      if offset == 0 {
        if right == data.Length {
          MovedOntoItself(data[..], left, 0);
          return;
        }
        var d := data.Length - right;
        if left + 2 * d > data.Length {
          return false;
        }
        MoveBytes(left + d, left, d);
        left, right := left + d, data.Length;
        assert data[left..right] == data[..][left..];
      } else if offset >= data.Length - left {
        left, right := data.Length, data.Length;
      } else if offset <= data.Length - right {
        Shift(left + offset);
      } else {
        MoveBytes(left + offset, left, data.Length - left - offset);
        left, right := data.Length - offset, data.Length;
        assert data[left..right] == data[..][left..];
      }
    }

    /** A storage of minSize bytes takes over, with the window at the same place. */
    method Resize(minSize: nat)
      requires Valid()
      modifies this`data, this`copied
      ensures Valid() && (data == old(data) || fresh(data))
      ensures Contents() == old(Contents())
      ensures View() == Resized(old(View()), minSize)
      ensures copied == old(copied) + if minSize < old(data.Length) then 0 else Size()
    {
      if minSize < data.Length {
        return;
      }
      var bigger := new char[minSize];
      forall i | left <= i < right {
        bigger[i] := data[i];
      }
      assert bigger[left..right] == data[left..right];
      copied := copied + (right - left);
      data := bigger;
    }

    /** reserve: it does not terminate for an empty capacity and a positive size. */
    method Reserve(minSize: nat)
      requires Valid() && (data.Length > 0 || minSize == 0)
      modifies this`data, this`copied
      ensures Valid() && (data == old(data) || fresh(data))
      ensures Contents() == old(Contents())
      ensures View() == Reserved(old(View()), minSize) && data.Length >= minSize
      ensures minSize < old(data.Length) ==> data == old(data) && copied == old(copied)
      ensures minSize >= old(data.Length) ==> copied == old(copied) + Size()
      ensures minSize >= old(data.Length) > 0 ==> data != old(data)
      ensures minSize > old(data.Length) > 0 ==> data.Length < 2 * minSize
    {
      if minSize < data.Length {
        return;
      }
      var newSize := 2 * data.Length;
      while newSize < minSize
        invariant newSize >= 2 * data.Length && (data.Length == 0 ==> newSize == 0)
        invariant data.Length > 0 ==> Doubled(newSize, minSize) == Doubled(2 * data.Length, minSize)
        invariant minSize > data.Length ==> newSize < 2 * minSize
        decreases minSize - newSize
      {
        newSize := 2 * newSize;
      }
      assert data.Length > 0 ==> Doubled(newSize, minSize) == newSize;
      Resize(newSize);
    }

    /** append(off_t n): the window grows over bytes that were written behind it. */
    method Extend(n: nat)
      requires Valid() && n <= Available()
      modifies this`right
      ensures Valid() && right == old(right) + n
      ensures Contents() == old(Contents()) + data[old(right)..old(right) + n]
    {
      right := right + n;
    }

    /** safeAppend */
    method CopyIn(buf: seq<char>)
      requires Valid() && |buf| <= Available()
      modifies this`right, data
      ensures Valid() && Contents() == old(Contents()) + buf
    {
      forall i | 0 <= i < |buf| {
        data[right + i] := buf[i];
      }
      right := right + |buf|;
      assert data[left..old(right)] == old(Contents());
      assert data[old(right)..right] == buf;
      assert data[left..right] == data[left..old(right)] + data[old(right)..right];
    }

    /** safeAppend of a pointer into this storage: memcpy within it. */
    method CopyWithin(off: nat, len: nat) returns (ok: bool)
      requires Valid() && len <= Available() && off + len <= data.Length
      modifies this`right, data
      ensures ok <==> Apart(off, old(right), len)
      ensures Valid()
      ensures Contents() == old(Contents()) + if ok then old(data[off..off + len]) else []
    {
      ok := off + len <= right || right + len <= off;
      if ok {
        CopyIn(data[off..off + len]);
      }
    }

    /** What append does before it copies. Bytes that are in the window stay where they were, too, while the
        storage stays and the window moves at least by its length. */
    method MakeRoom(len: nat)
      requires Valid() && !Empty()
      modifies this, data
      ensures Valid() && (data == old(data) || fresh(data)) && View() == MadeRoom(old(View()), len)
      ensures fresh(data) <==> len + Size() > old(data.Length) && old(Available()) < len
      ensures !fresh(data) ==> left == if old(Available()) >= len then old(left) else 0
      ensures !fresh(data) && (left == old(left) || Size() <= old(left)) ==>
        data[old(left)..old(left) + Size()] == Contents()
      ensures copied - old(copied) <= data.Length - old(data.Length)
      ensures data.Length == old(data.Length) || data.Length < 2 * (old(right) + len)
    {
      if data.Length - right >= len {
      } else if len + Size() <= data.Length {
        var _ := Forward(0);
        if Size() <= old(left) {
          MovedLeavesSource(old(data[..]), old(left), Size());
          assert data[old(left)..old(left) + Size()] == data[..][old(left)..old(left) + Size()];
        }
      } else {
        Reserve(Size() + len + left);
      }
    }

    /** An exactly fitting storage takes over from an empty one. */
    method TakeOver(buf: seq<char>)
      requires Valid()
      modifies this
      ensures Valid() && fresh(data) && View() == Slot(0, buf, |buf|)
    {
      var fit := new Buffer.FromBytes(buf);
      Swap(fit);
    }

    /** append(const char *, off_t), of bytes that are not the buffer's own. Into a non-empty buffer, the bytes
        that resize moves are paid for by the growth of the capacity; into an empty one, an exactly fitting
        storage takes over. */
    method Append(buf: seq<char>)
      requires Valid() && |buf| > 0
      modifies this, data
      ensures Valid() && (data == old(data) || fresh(data))
      ensures Contents() == old(Contents()) + buf
      ensures View() == Appended(old(View()), buf)
      ensures !old(Empty()) ==>
        && (data != old(data) <==> |buf| + old(Size()) > old(data.Length))
        && copied - old(copied) <= data.Length - old(data.Length)
        && (data.Length == old(data.Length) || data.Length < 2 * (old(right) + |buf|))
    {
      hide Appended, MadeRoom, Moved;
      AppendedSlots(View(), buf);
      if Empty() {
        TakeOver(buf);
        return;
      }
      MakeRoom(|buf|);
      CopyIn(buf);
    }

    /** append(const char *, off_t), of the buffer's own window. The pointer stays where it was when the window
        moves, and dangles when a larger storage takes over. */
    method AppendOwn() returns (ok: bool)
      requires Valid() && !Empty()
      modifies this, data
      ensures Valid() && (data == old(data) || fresh(data))
      ensures ok <==> old(Size()) <= old(Available()) || 2 * old(Size()) <= old(left)
      ensures Contents() == old(Contents()) + if ok then old(Contents()) else []
      ensures ok ==> View() == Appended(old(View()), old(Contents()))
    {
      hide Appended, MadeRoom, Moved;
      AppendedSlots(View(), Contents());
      var src, off, len := data, left, right - left;
      MakeRoom(len);
      if data != src {   // what src points to has been freed
        return false;
      }
      ok := CopyWithin(off, len);
    }

    /** append(const Buffer &). A buffer can be appended to itself exactly when its bytes fit behind the window, or
        the window stands so far behind the front that neither its move nor the copy reaches them. */
    method AppendBuffer(that: Buffer) returns (ok: bool)
      requires Valid() && that.Valid() && (that != this ==> that.data != data)
      modifies this, data
      ensures Valid() && (data == old(data) || fresh(data))
      ensures ok <==>
        that != this || old(Empty()) || old(Size()) <= old(Available()) || 2 * old(Size()) <= old(left)
      ensures Contents() == old(Contents()) + if ok then old(that.Contents()) else []
      ensures ok ==>
        View() == (if old(that.Empty()) then old(View()) else Appended(old(View()), old(that.Contents())))
    {
      hide Appended;
      ok := true;
      if that.Empty() {
      } else if that != this {
        Append(that.data[that.left..that.right]);
      } else {
        ok := AppendOwn();
      }
    }

    /** append(const std::string &): the terminating NUL is appended too. */
    method AppendString(str: seq<char>)
      requires Valid()
      modifies this, data
      ensures Valid() && (data == old(data) || fresh(data))
      ensures Contents() == old(Contents()) + str + ['\0']
      ensures View() == Appended(old(View()), str + ['\0'])
    {
      Append(str + ['\0']);
      assert old(Contents()) + (str + ['\0']) == old(Contents()) + str + ['\0'];
    }

    /** What prepend does before it copies. When the bytes fit nowhere, the new storage has no room in front. */
    method MakeRoomInFront(len: nat)
      requires Valid() && len > 0
      modifies this, data
      ensures Valid() && (data == old(data) || fresh(data)) && Contents() == old(Contents())
      ensures if Fits(old(View()), len) then data == old(data) && View() == MadeRoomInFront(old(View()), len)
              else left < len
      ensures old(left) >= len ==> data[..] == old(data[..])
    {
      if left >= len {
      } else if len + Size() <= data.Length {
        var _ := Backward(len - left);
      } else {
        var nb := new Buffer(len + Size());
        var _ := nb.AppendBuffer(this);
        Swap(nb);
      }
    }

    /** prepend(const char *, off_t), of bytes that are not the buffer's own. It writes in front of the window,
        and fails, by writing in front of the storage, exactly when the bytes fit neither there nor in the whole
        capacity. */
    method Prepend(buf: seq<char>) returns (ok: bool)
      requires Valid() && |buf| > 0
      modifies this, data
      ensures ok <==> old(left) >= |buf| || |buf| + old(Size()) <= old(data.Length)
      ensures Valid() && (data == old(data) || fresh(data))
      ensures Contents() == if ok then buf + old(Contents()) else old(Contents())
      ensures ok ==> View() == Prepended(old(View()), buf)
    {
      MakeRoomInFront(|buf|);
      if left < |buf| {
        return false;
      }
      CopyInFront(buf);
      ok := true;
    }

    /** safePreappend of a pointer into this storage. */
    method CopyInFrontWithin(off: nat, len: nat) returns (ok: bool)
      requires Valid() && len <= left && off + len <= data.Length
      modifies this`left, data
      ensures ok <==> Apart(off, old(left) - len, len)
      ensures Valid() && left == old(left) - (if ok then len else 0)
      ensures Contents() == (if ok then old(data[off..off + len]) else []) + old(Contents())
    {
      ok := off + len <= left - len || left <= off;
      if ok {
        CopyInFront(data[off..off + len]);
      }
    }

    /** prepend(const char *, off_t), of the buffer's own window: when the window has to move, memcpy reads where it
        writes. */
    method PrependOwn() returns (ok: bool)
      requires Valid() && !Empty()
      modifies this, data
      ensures Valid() && (data == old(data) || fresh(data))
      ensures ok <==> old(left) >= old(Size())
      ensures Contents() == (if ok then old(Contents()) else []) + old(Contents())
      ensures ok ==> View() == Prepended(old(View()), old(Contents()))
    {
      var src, off, len := data, left, right - left;
      MakeRoomInFront(len);
      if left < len || data != src {
        return false;
      }
      ok := CopyInFrontWithin(off, len);
    }

    /** prepend(const Buffer &) */
    method PrependBuffer(that: Buffer) returns (ok: bool)
      requires Valid() && that.Valid() && (that != this ==> that.data != data)
      modifies this, data
      ensures Valid() && (data == old(data) || fresh(data))
      ensures ok <==>
        && !old(that.Empty())
        && (old(left) >= old(that.Size())
            || (that != this && old(that.Size()) + old(Size()) <= old(data.Length)))
      ensures Contents() == (if ok then old(that.Contents()) else []) + old(Contents())
      ensures ok ==> View() == Prepended(old(View()), old(that.Contents()))
    {
      hide Prepended;
      ok := false;
      if that.Empty() {
      } else if that != this {
        ok := Prepend(that.data[that.left..that.right]);
      } else {
        ok := PrependOwn();
      }
    }

    /** safePreappend */
    method CopyInFront(buf: seq<char>)
      requires Valid() && |buf| <= left
      modifies this`left, data
      ensures Valid() && Contents() == buf + old(Contents()) && left == old(left) - |buf|
    {
      forall i | 0 <= i < |buf| {
        data[left - |buf| + i] := buf[i];
      }
      left := left - |buf|;
      assert data[old(left)..right] == old(Contents());
      assert data[left..old(left)] == buf;
      assert data[left..right] == data[left..old(left)] + data[old(left)..right];
    }

    method Clear()
      requires Valid()
      modifies this`left, this`right
      ensures Valid() && View() == Cleared(old(View()))
    {
      left, right := 0, 0;
    }

    /** retrieve(off_t): drops bytes from the front, all of them if there are fewer. */
    method Retrieve(len: nat)
      requires Valid()
      modifies this`left, this`right
      ensures Valid()
      ensures Contents() == Drop(old(Contents()), len)
      ensures View() == Retrieved(old(View()), len)
      ensures !old(Empty()) ==> left == if len <= old(Size()) then old(left) + len else 0
    {
      if right - left == 0 {
        return;
      } else if len > right - left {
        left, right := 0, 0;
      } else {
        left := left + len;
      }
    }

    /** retriveveAsString: 0 and anything above the size mean all of it. On an empty buffer the original
        calls itself forever. */
    method RetrieveAsString(len: nat) returns (s: seq<char>)
      requires Valid() && !Empty()
      modifies this`left, this`right
      ensures Valid()
      ensures s + Contents() == old(Contents())
      ensures |s| == if len == 0 || len > old(Size()) then old(Size()) else len
      ensures View() == Retrieved(old(View()), |s|)
    {
      var n := if len == 0 || len > right - left then right - left else len;
      s := data[left..left + n];
      Retrieve(n);
    }

    method DeepCopy(that: Buffer)
      requires Valid() && that.Valid() && (that != this ==> that.data != data)
      modifies this
      ensures Valid() && (data == old(data) || fresh(data))
      ensures Contents() == old(that.Contents())
      ensures View() == if that == this then old(View()) else Copied(old(View()), old(that.Contents()))
      ensures that != this ==> that.Contents() == old(that.Contents())
    {
      if this == that {
        return;
      }
      if that.Empty() {
        Clear();
        return;
      }
      var copy := new char[that.right - that.left];
      forall i | 0 <= i < copy.Length {
        copy[i] := that.data[that.left + i];
      }
      assert copy[..] == that.Contents();
      data, left, right, copied := copy, 0, copy.Length, 0;
    }
  }

  function Flatten(chunks: seq<seq<char>>): seq<char> {
    if chunks == [] then [] else Flatten(chunks[..|chunks| - 1]) + chunks[|chunks| - 1]
  }

  /** Any append-only run on a non-empty buffer: the contents grow by the chunks in order, and all the
      copying together is at most the growth of the capacity. */
  method AppendAll(b: Buffer, chunks: seq<seq<char>>)
    requires b.Valid() && !b.Empty()
    requires forall i | 0 <= i < |chunks| :: chunks[i] != []
    modifies b, b.data
    ensures b.Valid() && b.Contents() == old(b.Contents()) + Flatten(chunks)
    ensures b.copied - old(b.copied) <= b.data.Length - old(b.data.Length)
  {
    hide Appended;
    for i := 0 to |chunks|
      invariant b.Valid() && !b.Empty() && (b.data == old(b.data) || fresh(b.data))
      invariant b.Contents() == old(b.Contents()) + Flatten(chunks[..i])
      invariant b.copied - old(b.copied) <= b.data.Length - old(b.data.Length)
    {
      assert chunks[..i + 1][..i] == chunks[..i];
      b.Append(chunks[i]);
    }
    assert chunks[..|chunks|] == chunks;
  }
}
