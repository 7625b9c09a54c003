/**
 * The network buffer: one array, a reader index and a writer index, compacted or regrown
 * in place.  Every method is specified by its effect on the byte queue `Readable()`.
 */
module NetBuffer {
  import opened Common

  const CHEAP_PREPEND: nat := 8
  const INITIAL_SIZE: nat := 1024
  const EXTRA_SIZE: nat := 65536

  predicate CrlfAt(s: string, i: int)
  {
    0 <= i && i + 1 < |s| && s[i] == '\r' && s[i + 1] == '\n'
  }

  /** The position of the first CR LF at or after `from`. */
  function CrlfFrom(s: string, from: nat): (r: Option<nat>)
    requires from <= |s|
    ensures r.Some? ==> from <= r.value && CrlfAt(s, r.value)
    ensures forall k :: from <= k < (if r.Some? then r.value else |s|) ==> !CrlfAt(s, k)
    decreases |s| - from
  {
    if from == |s| then None
    else if CrlfAt(s, from) then Some(from)
    else CrlfFrom(s, from + 1)
  }

  function FirstCrlf(s: string): (r: Option<nat>)
    ensures r.Some? ==> CrlfAt(s, r.value)
    ensures forall k :: 0 <= k < (if r.Some? then r.value else |s|) ==> !CrlfAt(s, k)
  {
    CrlfFrom(s, 0)
  }

  /** A CR LF that has been found stays the first one however many bytes arrive later. */
  lemma FirstCrlfStable(a: string, b: string)
    requires FirstCrlf(a).Some?
    ensures FirstCrlf(a + b) == FirstCrlf(a)
  {
    var i := FirstCrlf(a).value;
    assert CrlfAt(a + b, i);
    assert forall k :: 0 <= k < i ==> CrlfAt(a + b, k) ==> CrlfAt(a, k);
  }

  /** A line without CR, terminated by CR LF, is found whole. */
  lemma FirstCrlfOfLine(line: string, rest: string)
    requires '\r' !in line
    ensures FirstCrlf(line + CRLF + rest) == Some(|line|)
  {
    var s := line + CRLF + rest;
    assert CrlfAt(s, |line|);
    assert forall k :: 0 <= k < |line| ==> s[k] == line[k] && !CrlfAt(s, k);
  }

  class Buffer {
    var data: array<char>
    var reader: nat
    var writer: nat

    ghost predicate Valid()
      reads this
    {
      CHEAP_PREPEND <= reader <= writer <= data.Length
    }

    /** The abstract byte queue. */
    ghost function Readable(): (s: string)
      requires Valid()
      reads this, data
    {
      data[reader..writer]
    }

    constructor (initialSize: nat)
      ensures Valid() && fresh(data)
      ensures Readable() == "" && data.Length == CHEAP_PREPEND + initialSize
    {
      data := new char[CHEAP_PREPEND + initialSize](_ => '\0');
      reader, writer := CHEAP_PREPEND, CHEAP_PREPEND;
    }

    function ReadableBytes(): (n: nat)
      requires Valid()
      reads this, data
      ensures n == |Readable()|
    {
      writer - reader
    }

    function WritableBytes(): nat
      requires Valid()
      reads this
    {
      data.Length - writer
    }

    method RetrieveAll()
      requires Valid()
      modifies this
      ensures Valid() && data == old(data)
      ensures Readable() == ""
    {
      reader, writer := CHEAP_PREPEND, CHEAP_PREPEND;
    }

    method Retrieve(len: nat)
      requires Valid() && len <= |Readable()|
      modifies this
      ensures Valid() && data == old(data)
      ensures Readable() == old(Readable())[len..]
      ensures len < |old(Readable())| ==> reader == old(reader) + len && writer == old(writer)
    {
      if len < ReadableBytes() {
        reader := reader + len;
      } else {
        RetrieveAll();
      }
    }

    /** `end` is a position of the array, as a pointer into it would be. */
    method RetrieveUntil(end: nat)
      requires Valid() && reader <= end <= writer
      modifies this
      ensures Valid() && data == old(data)
      ensures Readable() == old(Readable())[end - old(reader)..]
    {
      Retrieve(end - reader);
    }

    method RetrieveAsString(len: nat) returns (s: string)
      requires Valid() && len <= |Readable()|
      modifies this
      ensures Valid() && data == old(data)
      ensures s == old(Readable())[..len] && Readable() == old(Readable())[len..]
      ensures len < |old(Readable())| ==> reader == old(reader) + len && writer == old(writer)
    {
      s := data[reader..reader + len];
      Retrieve(len);
    }

    /** The overlapping copy towards the front of the array. */
    method MoveToFront()
      requires Valid() && CHEAP_PREPEND < reader
      modifies this, data
      ensures Valid() && data == old(data)
      ensures reader == CHEAP_PREPEND && Readable() == old(Readable())
    {
      var readable := writer - reader;
      var i := 0;
      while i < readable
        invariant 0 <= i <= readable && Valid() && data == old(data)
        invariant reader == old(reader) && writer == old(writer)
        invariant data[CHEAP_PREPEND..CHEAP_PREPEND + i] == old(data[reader..writer])[..i]
        invariant forall k :: old(reader) + i <= k < writer ==> data[k] == old(data[k])
      {
        data[CHEAP_PREPEND + i] := data[reader + i];
        i := i + 1;
      }
      reader := CHEAP_PREPEND;
      writer := reader + readable;
      assert Readable() == old(Readable());
    }

    /** `vector::resize` to a larger size. */
    method Regrow(size: nat)
      requires Valid() && data.Length <= size
      modifies this
      ensures Valid() && fresh(data) && data.Length == size
      ensures reader == old(reader) && writer == old(writer)
      ensures Readable() == old(Readable())
    {
      var bigger := new char[size](_ => '\0');
      var i := 0;
      while i < data.Length
        invariant 0 <= i <= data.Length && data == old(data)
        invariant reader == old(reader) && writer == old(writer)
        invariant bigger[..i] == old(data[..i])
      {
        bigger[i] := data[i];
        i := i + 1;
      }
      assert bigger[..i][reader..writer] == bigger[reader..writer];
      data := bigger;
    }

    /** Called only when the tail is too small for `len`. */
    method MakeSpace(len: nat)
      requires Valid() && WritableBytes() < len
      modifies this, data
      ensures Valid() && (data == old(data) || fresh(data))
      ensures Readable() == old(Readable()) && len <= WritableBytes()
      // Compaction happens only when the bytes really move left; otherwise growth is bounded.
      ensures data == old(data) ==> CHEAP_PREPEND < old(reader) && reader == CHEAP_PREPEND
      ensures data != old(data) ==> data.Length <= |Readable()| + 2 * len + 7
      ensures data == old(data) <==> |old(Readable())| + len + CHEAP_PREPEND <= old(data.Length)
    {
      if WritableBytes() + reader < len + CHEAP_PREPEND {
        Regrow(writer + len);
      } else {
        MoveToFront();
      }
    }

    method EnsureWritableBytes(len: nat)
      requires Valid()
      modifies this, data
      ensures Valid() && (data == old(data) || fresh(data))
      ensures Readable() == old(Readable()) && len <= WritableBytes()
      ensures data.Length <= old(data.Length) || data.Length <= |Readable()| + 2 * len + 7
    {
      if WritableBytes() < len {
        MakeSpace(len);
      }
    }

    /** Copies `s` into the tail without moving the writer index. */
    method CopyToTail(s: string)
      requires Valid() && |s| <= WritableBytes()
      modifies data
      ensures Valid() && Readable() == old(Readable())
      ensures data[writer..writer + |s|] == s
    {
      var i := 0;
      while i < |s|
        invariant 0 <= i <= |s|
        invariant data[writer..writer + i] == s[..i]
        invariant data[..writer] == old(data[..writer])
      {
        data[writer + i] := s[i];
        i := i + 1;
      }
      assert data[reader..writer] == data[..writer][reader..];
    }

    method HasWritten(len: nat)
      requires Valid() && len <= WritableBytes()
      modifies this`writer
      ensures Valid() && writer == old(writer) + len
      ensures Readable() == old(Readable()) + old(data[writer..writer + len])
    {
      writer := writer + len;
    }

    method Append(s: string)
      requires Valid()
      modifies this, data
      ensures Valid() && (data == old(data) || fresh(data))
      ensures Readable() == old(Readable()) + s
    {
      EnsureWritableBytes(|s|);
      CopyToTail(s);
      HasWritten(|s|);
    }

    /** The most one scatter read can return: the tail, plus the overflow area when the tail is short. */
    function ReadCapacity(): (n: nat)
      requires Valid()
      reads this
      ensures EXTRA_SIZE <= n && WritableBytes() <= n && (n < 2 * EXTRA_SIZE || n == WritableBytes())
    {
      if WritableBytes() < EXTRA_SIZE then WritableBytes() + EXTRA_SIZE else WritableBytes()
    }

    /** The kernel writes into the tail of the array and the writer index follows. */
    method FillTail(s: string)
      requires Valid() && |s| <= WritableBytes()
      modifies this`writer, data
      ensures Valid() && Readable() == old(Readable()) + s
    {
      CopyToTail(s);
      HasWritten(|s|);
    }

    /** `incoming` is what the kernel delivers; `failed` is a negative result. */
    method ReadFd(incoming: string, failed: bool) returns (n: int)
      requires Valid() && |incoming| <= ReadCapacity()
      modifies this, data
      ensures Valid() && (data == old(data) || fresh(data))
      ensures n == if failed then -1 else |incoming|
      ensures Readable() == if failed then old(Readable()) else old(Readable()) + incoming
    {
      if failed {
        return -1;
      }
      var writable := WritableBytes();
      n := |incoming|;
      if n <= writable {
        FillTail(incoming);
      } else {
        FillTail(incoming[..writable]);
        Append(incoming[writable..]);
        SplitAndJoin(old(Readable()), incoming, writable);
      }
    }

    /** The array position of the first CR LF among the readable bytes. */
    method FindCRLF() returns (r: Option<nat>)
      requires Valid()
      ensures r.Some? <==> FirstCrlf(Readable()).Some?
      ensures r.Some? ==> r.value == reader + FirstCrlf(Readable()).value
    {
      var i := reader;
      while i + 1 < writer
        invariant reader <= i <= writer
        invariant forall k :: 0 <= k < i - reader ==> !CrlfAt(Readable(), k)
      {
        if data[i] == '\r' && data[i + 1] == '\n' {
          assert CrlfAt(Readable(), i - reader);
          return Some(i);
        }
        assert !CrlfAt(Readable(), i - reader);
        i := i + 1;
      }
      return None;
    }
  }

  // ---- Whole runs ----

  datatype Op =
    | DoAppend(bytes: string)
    | DoRetrieve(len: nat)
    | DoRetrieveUntil(len: nat)       // up to the byte `len` behind the first readable one
    | DoReceive(bytes: string)
    | DoFailedRead

  /** The plain queue after the operations; None when a retrieve asks for more than there is. */
  function QueueAfter(q: string, ops: seq<Op>): Option<string>
    decreases |ops|
  {
    if ops == [] then Some(q)
    else
      match ops[0]
      case DoAppend(s) => QueueAfter(q + s, ops[1..])
      case DoReceive(s) => QueueAfter(q + s, ops[1..])
      case DoFailedRead => QueueAfter(q, ops[1..])
      case DoRetrieve(n) => if n <= |q| then QueueAfter(q[n..], ops[1..]) else None
      case DoRetrieveUntil(n) => if n <= |q| then QueueAfter(q[n..], ops[1..]) else None
  }

  /** A level-triggered reader: reads until the peer's bytes are exhausted. */
  method Receive(b: Buffer, bytes: string)
    requires b.Valid()
    modifies b, b.data
    ensures b.Valid() && (b.data == old(b.data) || fresh(b.data))
    ensures b.Readable() == old(b.Readable()) + bytes
  {
    var rest := bytes;
    while rest != ""
      invariant b.Valid() && (b.data == old(b.data) || fresh(b.data))
      invariant b.Readable() + rest == old(b.Readable()) + bytes
      decreases |rest|
    {
      var take := if |rest| <= b.ReadCapacity() then |rest| else b.ReadCapacity();
      SplitAndJoin(b.Readable(), rest, take);
      var n := b.ReadFd(rest[..take], false);
      rest := rest[take..];
    }
    assert b.Readable() + "" == b.Readable();
  }

  /** Any run of operations leaves the array holding exactly what the plain queue holds. */
  method Replay(b: Buffer, ops: seq<Op>)
    requires b.Valid() && QueueAfter(b.Readable(), ops).Some?
    modifies b, b.data
    ensures b.Valid() && Some(b.Readable()) == QueueAfter(old(b.Readable()), ops)
  {
    var i := 0;
    while i < |ops|
      invariant 0 <= i <= |ops| && b.Valid() && (b.data == old(b.data) || fresh(b.data))
      invariant QueueAfter(b.Readable(), ops[i..]) == QueueAfter(old(b.Readable()), ops)
    {
      assert ops[i..][0] == ops[i] && ops[i..][1..] == ops[i + 1..];
      match ops[i] {
        case DoAppend(s) => b.Append(s);
        case DoReceive(s) => Receive(b, s);
        case DoRetrieve(n) => b.Retrieve(n);
        case DoRetrieveUntil(n) => b.RetrieveUntil(b.reader + n);
        case DoFailedRead => var _ := b.ReadFd("", true);
      }
      i := i + 1;
    }
  }
}
