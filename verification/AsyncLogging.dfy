/** The asynchronous log: threads append under a lock to a pair of buffers, and a
    background thread exchanges them for two empty ones and writes what it took.
    A buffer is owned by one pointer at a time, so a moved-from pointer is None. */
module AsyncLogging {
  import opened Text

  const SIZE: nat := 4000 * 1000  // kLargerBuffer
  const LIMIT: nat := 25          // a batch of more buffers than this is cut
  const KEPT: nat := 2            // to its first two

  /** What the background thread took, and the note it writes when it cuts. */
  datatype Batch = Batch(buffers: seq<string>, note: string)

  datatype Phase =
    /** about to enter the critical section */
    | Waiting
    /** has exchanged the buffers */
    | Swapped
    /** has written the first `done` buffers of the batch */
    | Writing(done: nat)
    /** has left the loop after stop() */
    | Stopped

  datatype Log = Log(
    current: Option<string>,    // currentBuffer_
    next: Option<string>,       // nextBuffer_
    buffers: seq<string>,       // buffers_
    phase: Phase,
    new1: Option<string>,       // newBuffer1
    new2: Option<string>,       // newBuffer2
    batch: seq<string>,         // BufferToWrite
    file: string,               // all that went to the log file
    accepted: string,           // the messages appended, those of SIZE or more left out
    batches: seq<Batch>)        // what was taken so far, each with its note

  datatype Action =
    | Append(msg: string)
    | Exchange
    | Trim(note: string)
    | WriteOne
    | Refill
    | Stop

  /** FixedBuffer's append: a message that does not leave a byte free is dropped. */
  function Fill(buffer: string, msg: string): string
    requires |buffer| <= SIZE
  {
    if SIZE - |buffer| > |msg| then buffer + msg else buffer
  }

  /** What a batch puts in the file. */
  function Output(b: Batch): string {
    if |b.buffers| > LIMIT then b.note + Concat(b.buffers[..KEPT]) else Concat(b.buffers)
  }

  function Outputs(batches: seq<Batch>): string {
    if batches == [] then "" else Outputs(batches[..|batches| - 1]) + Output(batches[|batches| - 1])
  }

  /** All the buffers taken, cut or not. */
  function Taken(batches: seq<Batch>): string {
    if batches == [] then "" else Taken(batches[..|batches| - 1]) + Concat(batches[|batches| - 1].buffers)
  }

  /** Fault: a null buffer used, or back() of an empty vector. */
  datatype Outcome = Next(log: Log) | Disabled | Fault

  function AppendStep(s: Log, msg: string): Outcome {
    if s.current.None? || |s.current.value| > SIZE then Fault
    else if SIZE - |s.current.value| > |msg| then
      Next(s.(current := Some(Fill(s.current.value, msg)), accepted := s.accepted + msg))
    else
      var empty := if s.next.Some? then s.next.value else "";
      if |empty| > SIZE then Fault
      else Next(s.(buffers := s.buffers + [s.current.value], next := None,
                   current := Some(Fill(empty, msg)),
                   accepted := s.accepted + if |msg| < SIZE then msg else ""))
  }

  function ExchangeStep(s: Log): Outcome {
    if s.current.None? || s.batch != [] then Fault
    else
      var t := s.(batch := s.buffers + [s.current.value], buffers := [], current := s.new1, new1 := None,
                  phase := Swapped);
      Next(if s.next.Some? then t else t.(next := s.new2, new2 := None))
  }

  function TrimStep(s: Log, note: string): Outcome {
    var t := s.(phase := Writing(0), batches := s.batches + [Batch(s.batch, note)]);
    Next(if |s.batch| > LIMIT then t.(file := s.file + note, batch := s.batch[..KEPT]) else t)
  }

  function WriteStep(s: Log): Outcome {
    if !s.phase.Writing? || s.phase.done >= |s.batch| then Disabled
    else Next(s.(file := s.file + s.batch[s.phase.done], phase := Writing(s.phase.done + 1)))
  }

  function RefillStep(s: Log): Outcome {
    var left := if |s.batch| > KEPT then s.batch[..KEPT] else s.batch;
    if s.new1.None? && left == [] then Fault
    else
      var left2 := if s.new1.None? then left[..|left| - 1] else left;
      if s.new2.None? && left2 == [] then Fault
      else
        // the buffers moved into the two spares are reset, the others freed
        Next(s.(new1 := if s.new1.None? then Some("") else s.new1,
                new2 := if s.new2.None? then Some("") else s.new2,
                batch := [], phase := Waiting))
  }

  function Step(s: Log, a: Action): Outcome {
    match a
    case Append(msg) => AppendStep(s, msg)
    case Exchange => if s.phase.Waiting? then ExchangeStep(s) else Disabled
    case Trim(note) => if s.phase.Swapped? then TrimStep(s, note) else Disabled
    case WriteOne => WriteStep(s)
    case Refill => if s.phase == Writing(|s.batch|) then RefillStep(s) else Disabled
    case Stop => if s.phase.Waiting? then Next(s.(phase := Stopped)) else Disabled
  }

  function Run(s: Log, actions: seq<Action>): Outcome
    decreases |actions|
  {
    if actions == [] then Next(s)
    else match Step(s, actions[0])
         case Next(t) => Run(t, actions[1..])
         case o => o
  }

  const START := Log(Some(""), Some(""), [], Waiting, Some(""), Some(""), [], "", "", [])

  // ------------------------------------------------------------- invariants

  /** The exchange of the pointers. */
  predicate Owned(s: Log) {
    && s.current.Some? && |s.current.value| < SIZE
    && (s.next.Some? ==> s.next.value == "")
    && (s.next.None? ==> s.buffers != [])
    && (s.new1.Some? ==> s.new1.value == "")
    && (s.new2.Some? ==> s.new2.value == "")
    && (if s.phase.Waiting? || s.phase.Stopped? then s.new1.Some? && s.new2.Some? && s.batch == []
        else s.batch != [] && (s.new2.None? ==> |s.batch| >= 2))
  }

  /** The part of the batch that is neither in `batches` nor in the file. */
  function Untaken(s: Log): string { if s.phase.Swapped? then Concat(s.batch) else "" }

  function Unwritten(s: Log): string {
    if s.phase.Writing? && s.phase.done <= |s.batch| then Concat(s.batch[s.phase.done..]) else ""
  }

  /** Everything appended is in a batch taken or still buffered. */
  predicate Conserved(s: Log) {
    && s.current.Some?
    && s.accepted == ((Taken(s.batches) + Untaken(s)) + Concat(s.buffers)) + s.current.value
  }

  /** The file holds what the batches put there. */
  predicate Filed(s: Log) {
    && (s.phase.Writing? ==> s.phase.done <= |s.batch|)
    && s.file + Unwritten(s) == Outputs(s.batches)
  }

  lemma {:induction false} FlatSnoc(buffers: seq<string>, b: string)
    ensures Concat(buffers + [b]) == Concat(buffers) + b
    decreases |buffers|
  {
    if buffers == [] {
      assert buffers + [b] == [b];
      Glue(b, "", "");
    } else {
      assert (buffers + [b])[0] == buffers[0] && (buffers + [b])[1..] == buffers[1..] + [b];
      FlatSnoc(buffers[1..], b);
      Glue(buffers[0], Concat(buffers[1..]), b);
    }
  }

  lemma BatchesSnoc(batches: seq<Batch>, b: Batch)
    ensures Outputs(batches + [b]) == Outputs(batches) + Output(b)
    ensures Taken(batches + [b]) == Taken(batches) + Concat(b.buffers)
  {
    assert (batches + [b])[..|batches|] == batches;
  }

  /** No step faults, and the pointers keep their owners: currentBuffer_ is never null
      when a thread appends, and back() is never called on an empty vector. */
  lemma StepKeepsOwned(s: Log, a: Action)
    requires Owned(s)
    ensures !Step(s, a).Fault?
    ensures Step(s, a).Next? ==> Owned(Step(s, a).log)
  {
  }

  lemma AppendConserves(s: Log, msg: string)
    requires Owned(s) && Conserved(s)
    ensures AppendStep(s, msg).Next? && Conserved(AppendStep(s, msg).log)
  {
    var c := s.current.value;
    var front := Taken(s.batches) + Untaken(s);
    if SIZE - |c| > |msg| {
      Glue(front + Concat(s.buffers), c, msg);
    } else {
      FlatSnoc(s.buffers, c);
      Glue(front, Concat(s.buffers), c);
      Glue(s.accepted, "", "");
    }
  }

  lemma ExchangeConserves(s: Log)
    requires Owned(s) && Conserved(s) && s.phase.Waiting?
    ensures ExchangeStep(s).Next? && Conserved(ExchangeStep(s).log)
  {
    var c := s.current.value;
    FlatSnoc(s.buffers, c);
    Glue(Taken(s.batches), "", "");
    Glue(Taken(s.batches), Concat(s.buffers), c);
    Glue(s.accepted, "", "");
  }

  lemma TrimConserves(s: Log, note: string)
    requires Conserved(s) && s.phase.Swapped?
    ensures TrimStep(s, note).Next? && Conserved(TrimStep(s, note).log)
  {
    BatchesSnoc(s.batches, Batch(s.batch, note));
    Glue(Taken(s.batches) + Concat(s.batch), "", "");
  }

  lemma StepConserves(s: Log, a: Action)
    requires Owned(s) && Conserved(s) && Step(s, a).Next?
    ensures Conserved(Step(s, a).log)
  {
    if a.Append? {
      AppendConserves(s, a.msg);
    } else if a.Exchange? {
      ExchangeConserves(s);
    } else if a.Trim? {
      TrimConserves(s, a.note);
    }
  }

  lemma TrimFiles(s: Log, note: string)
    requires Filed(s) && s.phase.Swapped?
    ensures TrimStep(s, note).Next? && Filed(TrimStep(s, note).log)
  {
    var t := TrimStep(s, note).log;
    BatchesSnoc(s.batches, Batch(s.batch, note));
    Glue(s.file, "", "");
    Glue(s.file, note, Concat(t.batch));
    assert t.batch[0..] == t.batch;
  }

  lemma WriteFiles(s: Log)
    requires Filed(s) && WriteStep(s).Next?
    ensures Filed(WriteStep(s).log)
  {
    var k := s.phase.done;
    assert s.batch[k..][0] == s.batch[k] && s.batch[k..][1..] == s.batch[k + 1..];
    Glue(s.file, s.batch[k], Concat(s.batch[k + 1..]));
  }

  lemma StepFiles(s: Log, a: Action)
    requires Filed(s) && Step(s, a).Next?
    ensures Filed(Step(s, a).log)
  {
    if a.Trim? {
      TrimFiles(s, a.note);
    } else if a.WriteOne? {
      WriteFiles(s);
    } else if a.Refill? {
      assert s.batch[|s.batch|..] == [];
    }
  }

  lemma {:induction false} RunKeeps(s: Log, actions: seq<Action>)
    requires Owned(s) && Conserved(s) && Filed(s)
    ensures !Run(s, actions).Fault?
    ensures Run(s, actions).Next? ==>
              Owned(Run(s, actions).log) && Conserved(Run(s, actions).log) && Filed(Run(s, actions).log)
    decreases |actions|
  {
    if actions != [] {
      StepKeepsOwned(s, actions[0]);
      if Step(s, actions[0]).Next? {
        StepConserves(s, actions[0]);
        StepFiles(s, actions[0]);
        RunKeeps(Step(s, actions[0]).log, actions[1..]);
      }
    }
  }

  /** In every interleaving of appends with the background thread no null buffer is
      used and no empty vector popped, everything appended is in a batch taken or still
      buffered, in order, and the file with the rest of the batch being written is what
      the batches taken put out: whole batches, or the note and the first two buffers. */
  lemma RunsAreSound(actions: seq<Action>)
    ensures !Run(START, actions).Fault?
    ensures Run(START, actions).Next? ==>
              var s := Run(START, actions).log;
              && s.current.Some? && (s.next.None? ==> s.buffers != [])
              && s.accepted == ((Taken(s.batches) + Untaken(s)) + Concat(s.buffers)) + s.current.value
              && s.file + Unwritten(s) == Outputs(s.batches)
  {
    RunKeeps(START, actions);
  }

  predicate Uncut(batches: seq<Batch>) { forall b <- batches :: |b.buffers| <= LIMIT }

  lemma {:induction false} UncutOutputs(batches: seq<Batch>)
    requires Uncut(batches)
    ensures Outputs(batches) == Taken(batches)
  {
    if batches != [] {
      UncutOutputs(batches[..|batches| - 1]);
    }
  }

  /** While no batch is cut, the file, the rest of the batch, buffers_ and
      currentBuffer_ are together exactly what was appended. */
  lemma NothingLost(actions: seq<Action>)
    requires Run(START, actions).Next? && Uncut(Run(START, actions).log.batches)
    ensures var s := Run(START, actions).log;
            && s.current.Some?
            && s.accepted == (((s.file + Unwritten(s)) + Untaken(s)) + Concat(s.buffers)) + s.current.value
  {
    RunKeeps(START, actions);
    UncutOutputs(Run(START, actions).log.batches);
  }

  lemma {:induction false} FlatConcat(a: seq<string>, b: seq<string>)
    ensures Concat(a + b) == Concat(a) + Concat(b)
    decreases |a|
  {
    if a == [] {
      assert a + b == b;
    } else {
      assert (a + b)[0] == a[0] && (a + b)[1..] == a[1..] + b;
      FlatConcat(a[1..], b);
      Glue(a[0], Concat(a[1..]), Concat(b));
    }
  }

  /** The bytes that the cuts lost: of each batch that was too long, all buffers after
      the second. */
  function Lost(batches: seq<Batch>): string {
    if batches == [] then ""
    else
      var b := batches[|batches| - 1].buffers;
      Lost(batches[..|batches| - 1]) + if |b| > LIMIT then Concat(b[KEPT..]) else ""
  }

  /** And the notes written in their place. */
  function Notes(batches: seq<Batch>): string {
    if batches == [] then ""
    else
      var b := batches[|batches| - 1];
      Notes(batches[..|batches| - 1]) + if |b.buffers| > LIMIT then b.note else ""
  }

  lemma CutBatch(b: Batch)
    requires |b.buffers| > LIMIT
    ensures Concat(b.buffers) == Concat(b.buffers[..KEPT]) + Concat(b.buffers[KEPT..])
    ensures Output(b) == b.note + Concat(b.buffers[..KEPT])
  {
    FlatConcat(b.buffers[..KEPT], b.buffers[KEPT..]);
    assert b.buffers[..KEPT] + b.buffers[KEPT..] == b.buffers;
  }

  lemma {:induction false} LossAddsUp(batches: seq<Batch>)
    ensures |Taken(batches)| + |Notes(batches)| == |Outputs(batches)| + |Lost(batches)|
  {
    if batches != [] {
      LossAddsUp(batches[..|batches| - 1]);
      var b := batches[|batches| - 1];
      if |b.buffers| > LIMIT {
        CutBatch(b);
      }
    }
  }

  /** At any cut a run reaches, whatever was cut before: what was taken so far grows by
      the first two buffers and then the others, the file and the rest of the batch by
      the note and the first two.  The others are lost. */
  lemma CutLoses(actions: seq<Action>, note: string)
    requires Run(START, actions).Next? && Run(START, actions).log.phase.Swapped?
    requires |Run(START, actions).log.batch| > 25
    ensures var s := Run(START, actions).log;
            var t := TrimStep(s, note).log;
            var kept, cut := Concat(s.batch[..2]), Concat(s.batch[2..]);
            && Taken(t.batches) == Taken(s.batches) + (kept + cut)
            && t.file + Unwritten(t) == s.file + (note + kept)
            && Lost(t.batches) == Lost(s.batches) + cut
  {
    RunKeeps(START, actions);
    var s := Run(START, actions).log;
    var b := Batch(s.batch, note);
    TrimFiles(s, note);
    BatchesSnoc(s.batches, b);
    CutBatch(b);
    assert (s.batches + [b])[..|s.batches|] == s.batches;
    Glue(s.file, "", "");
  }

  /** Over every run the bytes that the file, the buffers and the rest of the batch are
      short of what was appended are those lost, less the notes. */
  lemma LossIsExact(actions: seq<Action>)
    requires Run(START, actions).Next?
    ensures var s := Run(START, actions).log;
            && s.current.Some?
            && |s.accepted| + |Notes(s.batches)| ==
               |(((s.file + Unwritten(s)) + Untaken(s)) + Concat(s.buffers)) + s.current.value|
               + |Lost(s.batches)|
  {
    RunKeeps(START, actions);
    LossAddsUp(Run(START, actions).log.batches);
  }

  // ------------------------------------------------------------- the object

  lemma FlatWhole(buffers: seq<string>)
    ensures buffers[..|buffers|] == buffers && Concat([]) == ""
  {
  }

  lemma {:induction false} FlatPrefix(buffers: seq<string>, k: nat)
    requires k < |buffers|
    ensures Concat(buffers[..k + 1]) == Concat(buffers[..k]) + buffers[k]
  {
    assert buffers[..k + 1] == buffers[..k] + [buffers[k]];
    FlatSnoc(buffers[..k], buffers[k]);
  }

  /** The object, with threadFunc's local buffers as fields. */
  class AsyncLogging {
    var currentBuffer: Option<string>
    var nextBuffer: Option<string>
    var buffers: seq<string>
    var newBuffer1: Option<string>
    var newBuffer2: Option<string>
    var bufferToWrite: seq<string>
    var file: string
    ghost var phase: Phase
    ghost var accepted: string
    ghost var batches: seq<Batch>

    ghost function State(): Log
      reads this
    {
      Log(currentBuffer, nextBuffer, buffers, phase, newBuffer1, newBuffer2, bufferToWrite, file,
          accepted, batches)
    }

    constructor ()
      ensures State() == START
    {
      currentBuffer, nextBuffer, buffers := Some(""), Some(""), [];
      newBuffer1, newBuffer2, bufferToWrite, file := Some(""), Some(""), [], "";
      phase, accepted, batches := Waiting, "", [];
    }

    method Append(msg: string)
      requires Owned(State())
      modifies this`currentBuffer, this`nextBuffer, this`buffers, this`accepted
      ensures AppendStep(old(State()), msg) == Next(State()) && Owned(State())
    {
      if SIZE - |currentBuffer.value| > |msg| {
        currentBuffer := Some(Fill(currentBuffer.value, msg));
        accepted := accepted + msg;
      } else {
        buffers := buffers + [currentBuffer.value];
        currentBuffer := None;
        if nextBuffer.Some? {
          currentBuffer := nextBuffer;
          nextBuffer := None;
        } else {
          currentBuffer := Some("");
        }
        currentBuffer := Some(Fill(currentBuffer.value, msg));
        accepted := accepted + if |msg| < SIZE then msg else "";
      }
    }

    /** The critical section of the background thread. */
    method Exchange()
      requires Owned(State()) && phase.Waiting?
      modifies this
      ensures ExchangeStep(old(State())) == Next(State()) && Owned(State())
    {
      buffers := buffers + [currentBuffer.value];
      currentBuffer := newBuffer1;
      newBuffer1 := None;
      bufferToWrite, buffers := buffers, bufferToWrite;
      if nextBuffer.None? {
        nextBuffer := newBuffer2;
        newBuffer2 := None;
      }
      phase := Swapped;
    }

    /** Cuts the batch if it is too long and writes it. */
    method WriteBatch(note: string)
      requires Owned(State()) && phase.Swapped?
      modifies this`bufferToWrite, this`file, this`phase, this`batches
      ensures file == old(file) + Output(Batch(old(bufferToWrite), note))
      ensures batches == old(batches) + [Batch(old(bufferToWrite), note)]
      ensures phase == Writing(|bufferToWrite|) && Owned(State())
    {
      hide Concat;
      phase, batches := Writing(0), batches + [Batch(bufferToWrite, note)];
      if |bufferToWrite| > LIMIT {
        file := file + note;
        bufferToWrite := bufferToWrite[..KEPT];
      }
      ghost var before := file;
      FlatWhole([]);
      for i := 0 to |bufferToWrite|
        modifies this`file, this`phase
        invariant phase == Writing(i) && file == before + Concat(bufferToWrite[..i])
      {
        FlatPrefix(bufferToWrite, i);
        Glue(before, Concat(bufferToWrite[..i]), bufferToWrite[i]);
        file := file + bufferToWrite[i];
        phase := Writing(i + 1);
      }
      FlatWhole(bufferToWrite);
      Glue(old(file), note, Concat(bufferToWrite));
    }

    /** Takes two written buffers, reset, as the spare ones. */
    method Refill()
      requires Owned(State()) && phase == Writing(|bufferToWrite|)
      modifies this
      ensures RefillStep(old(State())) == Next(State()) && Owned(State())
    {
      if |bufferToWrite| > KEPT {
        bufferToWrite := bufferToWrite[..KEPT];
      }
      if newBuffer1.None? {
        bufferToWrite := bufferToWrite[..|bufferToWrite| - 1];
        newBuffer1 := Some("");
      }
      if newBuffer2.None? {
        bufferToWrite := bufferToWrite[..|bufferToWrite| - 1];
        newBuffer2 := Some("");
      }
      bufferToWrite := [];
      phase := Waiting;
    }

    /** A turn of the background thread that nobody interrupts empties the shared
        buffers into the file. */
    method Turn(note: string)
      requires Owned(State()) && phase.Waiting?
      modifies this
      ensures Owned(State()) && phase.Waiting?
      ensures currentBuffer == Some("") && nextBuffer == Some("") && buffers == []
      ensures file == old(file) + Output(Batch(old(buffers + [currentBuffer.value]), note))
      ensures accepted == old(accepted)
    {
      Exchange();
      WriteBatch(note);
      Refill();
    }
  }
}
