/** The space of a buffer: what calls do to the array and the two indices. */
module BufferSpace {
  import opened Text
  import opened Buffer

  /** An append grows the array exactly if the readable bytes, the new ones and eight in
      front do not fit it, and then by no more than it needs; if they fit, but not behind
      the readable ones, those are moved to the front. */
  lemma AppendSpace(q: Queue, b: string)
    requires q.Sound() && 8 <= q.front
    ensures var r, n := Appended(q, b), |q.contents| + |b|;
            && (r.size == q.size <==> n + 8 <= q.size)
            && (n + 8 > q.size ==> r.size == q.front + n && r.front == q.front)
            && (n + 8 <= q.size ==> r.front == if q.front + n <= q.size then q.front else 8)
            && r.contents == q.contents + b
  {
  }

  /** A read fills what is left and appends the rest, so it takes the space that an append
      of all its bytes would. */
  lemma ReadSpace(q: Queue, b: string)
    requires q.Sound() && 8 <= q.front
    ensures var r, n := Received(q, b), |q.contents| + |b|;
            && (r.size == q.size <==> n + 8 <= q.size)
            && (n + 8 > q.size ==> r.size == q.front + n && r.front == q.front)
            && (n + 8 <= q.size ==> r.front == if q.front + n <= q.size then q.front else 8)
            && r.contents == q.contents + b
  {
    if |b| <= q.Room() {
    } else {
      var room := q.Room();
      AppendSpace(q.(contents := q.contents + b[..room]), b[room..]);
      Glue(q.contents, b[..room], b[room..]);
      assert b[..room] + b[room..] == b;
    }
  }

  /** Bytes that are taken leave their space in front; an empty buffer starts over. */
  lemma TakeSpace(q: Queue, n: nat)
    requires q.Sound()
    ensures var r := Shortened(q, n);
            && r.size == q.size && r.Sound()
            && (n < |q.contents| ==> r.front == q.front + n && r.Room() == q.Room() && r.contents == q.contents[n..])
            && (n >= |q.contents| ==> r.front == 8 && r.contents == "" && r.Room() == q.size - 8)
  {
  }

  /** A prepend takes its space from the front, and fits if that is as much. */
  lemma PrependSpace(q: Queue, b: string)
    requires q.Sound()
    ensures Step(q, Prepend(b)).Some? <==> |b| <= q.front
    ensures Step(q, Prepend(b)).Some? ==>
              var r := Step(q, Prepend(b)).value.0;
              r.front == q.front - |b| && r.size == q.size && r.Room() == q.Room() && r.contents == b + q.contents
  {
  }

  /** One read takes at most what is left of the array and the spill area of 65,536. */
  lemma ReadFits(q: Queue, b: string)
    requires q.Sound()
    ensures Step(q, Read(b)).Some? <==> q.front + |q.contents| + |b| <= q.size + 65536
  {
  }

  /** Never more than n bytes are readable. */
  predicate Within(q: Queue, calls: seq<Call>, n: nat)
    requires q.Sound() && Run(q, calls).Some?
    decreases |calls|
  {
    |q.contents| <= n &&
    if calls == [] then true
    else
      StepSound(q, calls[0]);
      Within(Step(q, calls[0]).value.0, calls[1..], n)
  }

  lemma StepStays(q: Queue, call: Call, n: nat)
    requires q.Sound() && 8 <= q.front && !call.Prepend? && Step(q, call).Some? && n + 8 <= q.size
    requires |Step(q, call).value.0.contents| <= n
    ensures var r := Step(q, call).value.0; r.size == q.size && r.Sound() && 8 <= r.front
  {
    match call
    case Put(b) => AppendSpace(q, b);
    case Read(b) => ReadSpace(q, b);
    case Take(k) => TakeSpace(q, k);
    case Prepend(_) =>
  }

  /** However long a run of appends, reads and retrieves is: while never more than n bytes
      are readable, an array of n + 8 never grows. */
  lemma {:induction false} NeverGrows(q: Queue, calls: seq<Call>, n: nat)
    requires q.Sound() && 8 <= q.front && NoPrepends(calls) && Run(q, calls).Some?
    requires Within(q, calls, n) && n + 8 <= q.size
    ensures Run(q, calls).value.0.size == q.size
    decreases |calls|
  {
    if calls != [] {
      assert !calls[0].Prepend?;
      var r := Step(q, calls[0]).value.0;
      StepSound(q, calls[0]);
      assert |r.contents| <= n by {
        assert Within(r, calls[1..], n);
      }
      StepStays(q, calls[0], n);
      hide Step;
      NeverGrows(r, calls[1..], n);
    }
  }

  /** Without prepends a prepend of up to eight bytes always fits. */
  lemma EightFit(q: Queue, calls: seq<Call>, b: string)
    requires q.Sound() && 8 <= q.front && NoPrepends(calls) && Run(q, calls).Some? && |b| <= 8
    ensures var r := Run(q, calls).value.0; r.Sound() && Step(r, Prepend(b)).Some?
  {
    FrontKept(q, calls);
    Conserved(q, "", calls);
  }
}
