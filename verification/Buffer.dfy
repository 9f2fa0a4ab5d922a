/** The byte buffer: one array with a read and a write index.  What it means is
    the readable part; every operation acts on that as on a queue. */
module Buffer {
  import opened Text

  const CHEAP_PREPEND := 8
  const INITIAL_SIZE := 1024
  const EXTRA_SIZE := 65536

  /** Where the first CR LF begins. */
  function FindCrlf(s: string): (r: Option<nat>)
    ensures r.Some? ==> r.value + 2 <= |s|
  {
    if |s| < 2 then None
    else if s[0] == '\r' && s[1] == '\n' then Some(0)
    else match FindCrlf(s[1..])
         case None => None
         case Some(i) => Some(i + 1)
  }

  predicate CrlfAt(s: string, i: nat) { i + 2 <= |s| && s[i] == '\r' && s[i + 1] == '\n' }

  /** It is the first one, and it is found if there is any. */
  lemma {:induction false} FindCrlfFirst(s: string, i: nat)
    ensures FindCrlf(s) == Some(i) <==> CrlfAt(s, i) && NoCrlfBefore(s, i)
  {
    if |s| >= 2 {
      if CrlfAt(s, 0) {
        assert FindCrlf(s) == Some(0);
      } else if i > 0 {
        FindCrlfFirst(s[1..], i - 1);
        assert forall j: nat :: CrlfAt(s, j + 1) <==> CrlfAt(s[1..], j);
        assert CrlfAt(s, i) <==> CrlfAt(s[1..], i - 1);
        if NoCrlfBefore(s[1..], i - 1) {
          forall j: nat | j < i ensures !CrlfAt(s, j) {
            assert j > 0 ==> CrlfAt(s, (j - 1) + 1) == CrlfAt(s[1..], j - 1);
          }
        }
      }
    }
  }

  ghost predicate NoCrlfBefore(s: string, m: nat) { forall j: nat :: j < m ==> !CrlfAt(s, j) }

  lemma NoCrlf(s: string, m: nat)
    requires NoCrlfBefore(s, m) && m + 2 > |s|
    ensures FindCrlf(s).None?
  {
    if FindCrlf(s).Some? {
      FindCrlfFirst(s, FindCrlf(s).value);
      assert false;
    }
  }

  /** More bytes behind do not move a CR LF that was found. */
  lemma {:induction false} FindCrlfStable(a: string, b: string)
    requires FindCrlf(a).Some?
    ensures FindCrlf(a + b) == FindCrlf(a)
  {
    assert (a + b)[0] == a[0] && (a + b)[1] == a[1];
    if !CrlfAt(a, 0) {
      FindCrlfStable(a[1..], b);
      assert (a + b)[1..] == a[1..] + b;
    }
  }

  predicate NoChar(s: string, c: char) { forall i :: 0 <= i < |s| ==> s[i] != c }

  /** A line without CR ends at the CR LF put behind it. */
  lemma {:induction false} LineFound(line: string, rest: string)
    requires NoChar(line, '\r')
    ensures FindCrlf(line + ("\r\n" + rest)) == Some(|line|)
    ensures (line + ("\r\n" + rest))[..|line|] == line && (line + ("\r\n" + rest))[|line| + 2..] == rest
  {
    var s := line + ("\r\n" + rest);
    if line != [] {
      LineFound(line[1..], rest);
      assert s[1..] == line[1..] + ("\r\n" + rest);
      assert s[0] == line[0];
    }
  }

  /** What retrieving len bytes leaves. */
  function Retrieved(s: string, len: nat): string {
    if len < |s| then s[len..] else []
  }

  // ---------------------------------------------------------------- as a queue

  /** The readable bytes, the space in front of them and the size of the array. */
  datatype Queue = Queue(front: nat, size: nat, contents: string) {
    predicate Sound() { front + |contents| <= size && CHEAP_PREPEND <= size }

    /** The writable bytes. */
    function Room(): nat
      requires Sound()
    {
      size - front - |contents|
    }
  }

  /** makeSpace: grows the array, or moves the bytes to the front of it. */
  function Spaced(q: Queue, len: nat): Queue
    requires q.Sound()
  {
    if q.Room() >= len then q
    else if q.Room() + q.front < len + CHEAP_PREPEND then q.(size := q.front + |q.contents| + len)
    else q.(front := CHEAP_PREPEND)
  }

  function Appended(q: Queue, bytes: string): Queue
    requires q.Sound()
  {
    Spaced(q, |bytes|).(contents := q.contents + bytes)
  }

  /** readFd: what does not fit the writable bytes is appended after. */
  function Received(q: Queue, bytes: string): Queue
    requires q.Sound()
  {
    if |bytes| <= q.Room() then q.(contents := q.contents + bytes)
    else Appended(q.(contents := q.contents + bytes[..q.Room()]), bytes[q.Room()..])
  }

  function Shortened(q: Queue, len: nat): Queue {
    if len < |q.contents| then q.(front := q.front + len, contents := q.contents[len..])
    else q.(front := CHEAP_PREPEND, contents := [])
  }

  function Prepended(q: Queue, bytes: string): Queue
    requires |bytes| <= q.front
  {
    q.(front := q.front - |bytes|, contents := bytes + q.contents)
  }

  datatype Call = Put(bytes: string) | Read(bytes: string) | Take(len: nat) | Prepend(bytes: string)

  /** One call, with the bytes it takes out; None for a prepend or a read of more than
      there is space for. */
  function Step(q: Queue, call: Call): Option<(Queue, string)>
    requires q.Sound()
  {
    match call
    case Put(b) => Some((Appended(q, b), ""))
    case Read(b) => if |b| <= q.Room() + EXTRA_SIZE then Some((Received(q, b), "")) else None
    case Take(n) => Some((Shortened(q, n), q.contents[..if n < |q.contents| then n else |q.contents|]))
    case Prepend(b) => if |b| <= q.front then Some((Prepended(q, b), "")) else None
  }

  /** The queue after some calls, and all the bytes they took. */
  function Run(q: Queue, calls: seq<Call>): Option<(Queue, string)>
    requires q.Sound()
    decreases |calls|
  {
    if calls == [] then Some((q, ""))
    else match Step(q, calls[0])
         case None => None
         case Some((r, taken)) =>
           StepSound(q, calls[0]);
           match Run(r, calls[1..])
           case None => None
           case Some((e, more)) => Some((e, taken + more))
  }

  lemma StepSound(q: Queue, call: Call)
    requires q.Sound() && Step(q, call).Some?
    ensures Step(q, call).value.0.Sound()
  {
  }

  /** One text with a place in it: bytes come in at its end, or where it stands, and are
      taken where it stands. */
  datatype Log = Log(bytes: string, place: nat)

  function Logged(l: Log, call: Call): Log {
    match call
    case Put(b) => l.(bytes := l.bytes + b)
    case Read(b) => l.(bytes := l.bytes + b)
    case Take(n) => l.(place := if l.place + n < |l.bytes| then l.place + n else |l.bytes|)
    case Prepend(b) => if l.place <= |l.bytes| then l.(bytes := l.bytes[..l.place] + (b + l.bytes[l.place..])) else l
  }

  function LogOf(l: Log, calls: seq<Call>): Log
    decreases |calls|
  {
    if calls == [] then l else LogOf(Logged(l, calls[0]), calls[1..])
  }

  lemma StepLogs(q: Queue, before: string, call: Call)
    requires q.Sound() && Step(q, call).Some?
    ensures var (r, taken) := Step(q, call).value;
            Logged(Log(before + q.contents, |before|), call) == Log((before + taken) + r.contents, |before + taken|)
  {
    var (r, taken) := Step(q, call).value;
    Glue(before, "", "");
    match call
    case Put(b) => Glue(before, q.contents, b);
    case Read(b) =>
      Glue(before, q.contents, b);
      if |b| > q.Room() {
        Glue(q.contents, b[..q.Room()], b[q.Room()..]);
        assert b[..q.Room()] + b[q.Room()..] == b;
      }
    case Take(n) =>
      Glue(before, taken, r.contents);
      assert taken + r.contents == q.contents;
    case Prepend(b) =>
      assert (before + q.contents)[..|before|] == before;
      assert (before + q.contents)[|before|..] == q.contents;
  }

  /** Over any run of appends, reads, retrieves and prepends that fit: the bytes taken
      and then those left are the log, and what was taken ends where the log stands. */
  lemma {:induction false} Conserved(q: Queue, before: string, calls: seq<Call>)
    requires q.Sound() && Run(q, calls).Some?
    ensures var (r, taken) := Run(q, calls).value;
            && r.Sound()
            && LogOf(Log(before + q.contents, |before|), calls) ==
               Log((before + taken) + r.contents, |before + taken|)
    decreases |calls|
  {
    Glue(before, "", "");
    if calls != [] {
      StepSound(q, calls[0]);
      StepLogs(q, before, calls[0]);
      var (r, taken) := Step(q, calls[0]).value;
      Conserved(r, before + taken, calls[1..]);
      Glue(before, taken, Run(r, calls[1..]).value.1);
    }
  }

  predicate NoPrepends(calls: seq<Call>) { forall i :: 0 <= i < |calls| ==> !calls[i].Prepend? }

  function AllPut(calls: seq<Call>): string {
    if calls == [] then [] else (if calls[0].Put? || calls[0].Read? then calls[0].bytes else []) + AllPut(calls[1..])
  }

  lemma {:induction false} LogGrows(l: Log, calls: seq<Call>)
    requires NoPrepends(calls)
    ensures LogOf(l, calls).bytes == l.bytes + AllPut(calls)
    decreases |calls|
  {
    Glue(l.bytes, [], []);
    if calls != [] {
      var c := calls[0];
      assert !c.Prepend?;
      LogGrows(Logged(l, c), calls[1..]);
      Glue(l.bytes, if c.Put? || c.Read? then c.bytes else [], AllPut(calls[1..]));
    }
  }

  /** Without prepends that is first in, first out; and eight bytes always fit in front. */
  lemma FirstInFirstOut(q: Queue, calls: seq<Call>)
    requires q.Sound() && Run(q, calls).Some? && NoPrepends(calls)
    ensures var (r, taken) := Run(q, calls).value; taken + r.contents == q.contents + AllPut(calls)
  {
    Conserved(q, "", calls);
    LogGrows(Log("" + q.contents, 0), calls);
    Glue(q.contents, "", "");
    Glue(Run(q, calls).value.1, "", "");
  }

  lemma {:induction false} FrontKept(q: Queue, calls: seq<Call>)
    requires q.Sound() && CHEAP_PREPEND <= q.front && NoPrepends(calls) && Run(q, calls).Some?
    ensures CHEAP_PREPEND <= Run(q, calls).value.0.front
    decreases |calls|
  {
    if calls != [] {
      assert !calls[0].Prepend?;
      StepSound(q, calls[0]);
      FrontKept(Step(q, calls[0]).value.0, calls[1..]);
    }
  }

  class Buffer {
    var data: array<char>
    var readerIndex: nat
    var writerIndex: nat

    ghost predicate Valid()
      reads this
    {
      readerIndex <= writerIndex <= data.Length && CHEAP_PREPEND <= data.Length
    }

    /** The readable bytes. */
    ghost function Contents(): string
      reads this, data
      requires Valid()
    {
      data[readerIndex..writerIndex]
    }

    ghost function Value(): (q: Queue)
      reads this, data
      requires Valid()
      ensures q.Sound()
    {
      Queue(readerIndex, data.Length, Contents())
    }

    constructor ()
      ensures Valid() && fresh(data) && Contents() == []
      ensures Value() == Queue(8, 1032, [])
    {
      data := new char[CHEAP_PREPEND + INITIAL_SIZE];
      readerIndex, writerIndex := CHEAP_PREPEND, CHEAP_PREPEND;
    }

    function ReadableBytes(): (n: nat)
      reads this, data
      requires Valid()
      ensures n == |Contents()|
    {
      writerIndex - readerIndex
    }

    function WritableBytes(): nat
      reads this
      requires Valid()
    {
      data.Length - writerIndex
    }

    function PrependableBytes(): nat
      reads this
    {
      readerIndex
    }

    /** The offset of the first CR LF from the first readable byte. */
    method FindCRLF() returns (r: Option<nat>)
      requires Valid()
      ensures r == FindCrlf(Contents())
    {
      ghost var s := Contents();
      var i := readerIndex;
      while i + 1 < writerIndex
        invariant readerIndex <= i <= writerIndex
        invariant NoCrlfBefore(s, i - readerIndex)
      {
        assert s[i - readerIndex] == data[i] && s[i + 1 - readerIndex] == data[i + 1];
        if data[i] == '\r' && data[i + 1] == '\n' {
          assert CrlfAt(s, i - readerIndex);
          FindCrlfFirst(s, i - readerIndex);
          return Some(i - readerIndex);
        }
        assert !CrlfAt(s, i - readerIndex);
        i := i + 1;
      }
      NoCrlf(s, i - readerIndex);
      r := None;
    }

    /** The first len readable bytes, which peek() points to. */
    method Peek(len: nat) returns (s: string)
      requires Valid() && len <= |Contents()|
      ensures s == Contents()[..len]
    {
      s := data[readerIndex..readerIndex + len];
    }

    method Retrieve(len: nat)
      requires Valid()
      modifies this
      ensures Valid() && data == old(data) && Contents() == Retrieved(old(Contents()), len)
      ensures Value() == Shortened(old(Value()), len)
    {
      if len < ReadableBytes() {
        readerIndex := readerIndex + len;
      } else {
        RetrieveAll();
      }
    }

    method RetrieveAll()
      requires Valid()
      modifies this
      ensures Valid() && data == old(data) && Contents() == []
      ensures readerIndex == CHEAP_PREPEND
    {
      readerIndex := CHEAP_PREPEND;
      writerIndex := CHEAP_PREPEND;
    }

    method RetrieveAsString() returns (s: string)
      requires Valid()
      modifies this
      ensures Valid() && data == old(data) && s == old(Contents()) && Contents() == []
      ensures Value() == Shortened(old(Value()), |s|)
    {
      s := data[readerIndex..writerIndex];
      RetrieveAll();
    }

    method Append(s: string)
      requires Valid()
      modifies this, data
      ensures Valid() && (data == old(data) || fresh(data))
      ensures Contents() == old(Contents()) + s
      ensures Value() == Appended(old(Value()), s)
    {
      EnsureWritableBytes(|s|);
      Fill(s);
    }

    /** std::copy of s to the position `at`. */
    method CopyIn(s: string, at: nat)
      requires Valid() && at + |s| <= data.Length
      modifies data
      ensures data[at..at + |s|] == s
      ensures forall k :: 0 <= k < data.Length && (k < at || at + |s| <= k) ==> data[k] == old(data[k])
    {
      for i := 0 to |s|
        invariant forall k :: 0 <= k < i ==> data[at + k] == s[k]
        invariant forall k :: 0 <= k < data.Length && (k < at || at + i <= k) ==> data[k] == old(data[k])
      {
        data[at + i] := s[i];
      }
    }

    method EnsureWritableBytes(len: nat)
      requires Valid()
      modifies this, data
      ensures Valid() && (data == old(data) || fresh(data))
      ensures WritableBytes() >= len && Contents() == old(Contents())
      ensures Value() == Spaced(old(Value()), len)
    {
      if WritableBytes() < len {
        MakeSpace(len);
      }
    }

    /** Makes room for len bytes: by a larger array, or by moving the readable
        bytes to the front.  The copy goes forward over itself, which is sound
        because it moves to the left. */
    method MakeSpace(len: nat)
      requires Valid() && WritableBytes() < len
      modifies this, data
      ensures Valid() && (data == old(data) || fresh(data))
      ensures WritableBytes() >= len && Contents() == old(Contents())
      ensures Value() == Spaced(old(Value()), len)
    {
      if WritableBytes() + PrependableBytes() < len + CHEAP_PREPEND {
        Resize(writerIndex + len);
      } else {
        assert readerIndex > CHEAP_PREPEND;
        MoveToFront();
      }
    }

    method MoveToFront()
      requires Valid() && readerIndex > CHEAP_PREPEND
      modifies this`readerIndex, this`writerIndex, data
      ensures Valid() && Value() == old(Value()).(front := CHEAP_PREPEND)
    {
      ghost var before := Contents();
      var readable := ReadableBytes();
      for i := 0 to readable
        invariant readerIndex == old(readerIndex) && writerIndex == old(writerIndex)
        invariant forall k :: 0 <= k < i ==> data[CHEAP_PREPEND + k] == before[k]
        invariant forall k :: readerIndex + i <= k < writerIndex ==> data[k] == before[k - readerIndex]
      {
        data[CHEAP_PREPEND + i] := data[readerIndex + i];
      }
      readerIndex := CHEAP_PREPEND;
      writerIndex := readerIndex + readable;
      assert data[readerIndex..writerIndex] == before;
    }

    /** vector::resize to a larger size. */
    method Resize(size: nat)
      requires Valid() && size >= data.Length
      modifies this
      ensures Valid() && fresh(data) && data.Length == size
      ensures readerIndex == old(readerIndex) && writerIndex == old(writerIndex)
      ensures Contents() == old(Contents())
    {
      ghost var before := Contents();
      var larger := new char[size];
      for i := 0 to data.Length
        invariant data == old(data) && readerIndex == old(readerIndex) && writerIndex == old(writerIndex)
        invariant forall k :: 0 <= k < i ==> larger[k] == data[k]
      {
        larger[i] := data[i];
      }
      assert larger[readerIndex..writerIndex] == data[readerIndex..writerIndex];
      data := larger;
    }

    /** Puts s in front of the readable bytes; the caller keeps to the space there. */
    method Prepend(s: string)
      requires Valid() && |s| <= PrependableBytes()
      modifies this, data
      ensures Valid() && data == old(data) && Contents() == s + old(Contents())
      ensures Value() == Prepended(old(Value()), s)
    {
      ghost var before := Contents();
      readerIndex := readerIndex - |s|;
      CopyIn(s, readerIndex);
      assert data[readerIndex..writerIndex] == s + before;
    }

    /** readFd, where readv has delivered `received`, or failed.  What does not
        fit into the writable bytes comes in by the buffer on the stack. */
    method ReadFd(received: Option<string>) returns (n: int)
      requires Valid()
      requires received.Some? ==> |received.value| <= WritableBytes() + EXTRA_SIZE
      modifies this, data
      ensures Valid() && (data == old(data) || fresh(data))
      ensures n == if received.None? then -1 else |received.value|
      ensures Contents() == old(Contents()) + (if received.None? then [] else received.value)
      ensures Value() == if received.None? then old(Value()) else Received(old(Value()), received.value)
    {
      if received.None? {
        Glue(Contents(), [], []);
        return -1;
      }
      var bytes, writable := received.value, WritableBytes();
      n := |bytes|;
      if n <= writable {
        Fill(bytes);
      } else {
        ghost var before := Contents();
        Glue(before, bytes[..writable], bytes[writable..]);
        assert bytes[..writable] + bytes[writable..] == bytes;
        hide Appended;
        Fill(bytes[..writable]);
        Append(bytes[writable..]);
      }
    }

    /** What readv puts into the writable bytes. */
    method Fill(bytes: string)
      requires Valid() && |bytes| <= WritableBytes()
      modifies this`writerIndex, data
      ensures Valid() && Value() == old(Value()).(contents := old(Contents()) + bytes)
    {
      ghost var before := Contents();
      CopyIn(bytes, writerIndex);
      writerIndex := writerIndex + |bytes|;
      assert data[readerIndex..writerIndex] == before + bytes;
    }
  }
}
