/** On every input, accepted or not, the reader keeps to the grammar of event
    streams. */
module ReaderEvents {
  import opened Text
  import opened Json
  import opened ReaderSpec

  /** The scan's events may come at p, and lead to q if the scan succeeds. */
  ghost predicate Leads(p: Position, r: Scan, q: Position) {
    && AdvanceAll(p, r.events).Some?
    && (r.Scanned? ==> AdvanceAll(p, r.events) == Some(q))
  }

  /** A scan that follows on events leading from p to q. */
  lemma LeadsAfter(p: Position, before: seq<Event>, q: Position, r: Scan, end: Position)
    requires AdvanceAll(p, before) == Some(q) && Leads(q, r, end)
    ensures Leads(p, r.After(before), end)
  {
    AdvanceConcat(p, before, r.events);
  }

  lemma LeadsOne(p: Position, e: Event, q: Position)
    requires Advance(p, e) == Some(q)
    ensures AdvanceAll(p, [e]) == Some(q)
  {
    AdvanceOne(p, e);
  }

  /** Outside of containers a scan sends one scalar, or fails and sends nothing. */
  ghost predicate OneScalar(r: Scan) {
    if r.Scanned? then |r.events| == 1 && IsScalar(r.events[0]) else r.events == []
  }

  lemma NumberScan(fits: DoubleRange, s: string)
    ensures OneScalar(ParseNumber(fits, s))
  {
    if Peek(s) != 'N' && Peek(s) != 'I' && ScanNumber(s).Some? {
      ScanNumberSound(s);
      var (t, rest) := ScanNumber(s).value;
      var m := t.Meaning(fits);
      assert ParseNumber(fits, s) ==
             if m.None? then Stopped(NUMBER_TOO_BIG, []) else Scanned(rest, [m.value]);
    }
  }

  /** What ParseValue calls, by definition. */
  lemma Dispatch(fits: DoubleRange, s: string)
    ensures Peek(s) == '[' ==> ParseValue(fits, s) == ParseArray(fits, s)
    ensures Peek(s) == '{' ==> ParseValue(fits, s) == ParseObject(fits, s)
  {
  }

  lemma ScalarScan(fits: DoubleRange, s: string)
    requires Peek(s) != '[' && Peek(s) != '{'
    ensures OneScalar(ParseValue(fits, s))
  {
    NumberScan(fits, s);
  }

  lemma ScalarLeads(r: Scan, p: Position)
    requires TakesValue(p) && OneScalar(r)
    ensures Leads(p, r, Filled(p))
  {
    if r.Scanned? {
      LeadsOne(p, r.events[0], Filled(p));
      assert r.events == [r.events[0]];
    }
  }

  lemma {:induction false} ValueLeads(fits: DoubleRange, s: string, p: Position)
    requires TakesValue(p)
    ensures Leads(p, ParseValue(fits, s), Filled(p))
    decreases |s|, 1
  {
    Dispatch(fits, s);
    if Peek(s) == '[' {
      ArrayLeads(fits, s, p);
    } else if Peek(s) == '{' {
      ObjectLeads(fits, s, p);
    } else {
      ScalarScan(fits, s);
      ScalarLeads(ParseValue(fits, s), p);
    }
  }

  /** The position inside a container that has just been opened. */
  function Inside(p: Position, f: Frame): (q: Position)
    requires TakesValue(p)
    ensures q.open != [] && q.Top() == f && q.begun && q.Pop() == Filled(p)
  {
    var q := Position(Filled(p).open + [f], true);
    assert q.Pop() == Filled(p);
    q
  }

  lemma EmptyLeads(p: Position, opening: Event, q: Position, closing: Event, r: string)
    requires Advance(p, opening) == Some(q) && Advance(q, closing).Some?
    ensures Leads(p, Scanned(r, [opening, closing]), Advance(q, closing).value)
  {
    LeadsOne(p, opening, q);
    LeadsOne(q, closing, Advance(q, closing).value);
    LeadsAfter(p, [opening], q, Scanned(r, [closing]), Advance(q, closing).value);
    assert [opening] + [closing] == [opening, closing];
  }

  lemma {:induction false} ArrayLeads(fits: DoubleRange, s: string, p: Position)
    requires TakesValue(p) && Peek(s) == '['
    ensures Leads(p, ParseArray(fits, s), Filled(p))
    decreases |s|, 0
  {
    var q := Inside(p, InArray);
    var t := SkipWs(Rest(s));
    if Peek(t) == ']' {
      EmptyLeads(p, StartArray, q, EndArray, Rest(t));
      assert ParseArray(fits, s) == Scanned(Rest(t), [StartArray, EndArray]);
    } else {
      ElementsLead(fits, t, q);
      LeadsOne(p, StartArray, q);
      LeadsAfter(p, [StartArray], q, ParseElements(fits, t), Filled(p));
      assert ParseArray(fits, s) == ParseElements(fits, t).After([StartArray]);
    }
  }

  lemma {:induction false} ElementsLead(fits: DoubleRange, s: string, p: Position)
    requires p.open != [] && p.Top().InArray? && p.begun
    ensures Leads(p, ParseElements(fits, s), p.Pop())
    decreases |s|, 2
  {
    ValueLeads(fits, s, p);
    var v := ParseValue(fits, s);
    BehindElement(fits, s);
    if v.Scanned? {
      var t := SkipWs(v.rest);
      if Peek(t) == ',' {
        var u := SkipWs(Rest(t));
        ElementsLead(fits, u, p);
        LeadsAfter(p, v.events, p, ParseElements(fits, u), p.Pop());
      } else if Peek(t) == ']' {
        LeadsOne(p, EndArray, p.Pop());
        LeadsAfter(p, v.events, p, Scanned(Rest(t), [EndArray]), p.Pop());
      }
    }
  }

  lemma {:induction false} ObjectLeads(fits: DoubleRange, s: string, p: Position)
    requires TakesValue(p) && Peek(s) == '{'
    ensures Leads(p, ParseObject(fits, s), Filled(p))
    decreases |s|, 0
  {
    var q := Inside(p, InObject(false));
    var t := SkipWs(Rest(s));
    if Peek(t) == '}' {
      EmptyLeads(p, StartObject, q, EndObject, Rest(t));
      assert ParseObject(fits, s) == Scanned(Rest(t), [StartObject, EndObject]);
    } else {
      MembersLead(fits, t, q);
      LeadsOne(p, StartObject, q);
      LeadsAfter(p, [StartObject], q, ParseMembers(fits, t), Filled(p));
      assert ParseObject(fits, s) == ParseMembers(fits, t).After([StartObject]);
    }
  }

  lemma {:induction false} MemberLeads(fits: DoubleRange, s: string, p: Position)
    requires p.open != [] && p.Top() == InObject(false) && p.begun && Peek(s) == '"'
    ensures Leads(p, ParseMember(fits, s), p)
    decreases |s|, 2
  {
    var k := ParseString(s, true);
    if k.Scanned? {
      var q := p.WithTop(InObject(true));
      assert Filled(q) == p;
      LeadsOne(p, k.events[0], q);
      var t := SkipWs(k.rest);
      if Peek(t) == ':' {
        var u := SkipWs(Rest(t));
        ValueLeads(fits, u, q);
        LeadsAfter(p, k.events, q, ParseValue(fits, u), p);
      }
    }
  }

  lemma {:induction false} MembersLead(fits: DoubleRange, s: string, p: Position)
    requires p.open != [] && p.Top() == InObject(false) && p.begun
    ensures Leads(p, ParseMembers(fits, s), p.Pop())
    decreases |s|, 3
  {
    if Peek(s) == '"' {
      MemberLeads(fits, s, p);
      var m := ParseMember(fits, s);
      BehindMember(fits, s);
      if m.Scanned? {
        var t := SkipWs(m.rest);
        if Peek(t) == ',' {
          var u := SkipWs(Rest(t));
          MembersLead(fits, u, p);
          LeadsAfter(p, m.events, p, ParseMembers(fits, u), p.Pop());
        } else if Peek(t) == '}' {
          LeadsOne(p, EndObject, p.Pop());
          LeadsAfter(p, m.events, p, Scanned(Rest(t), [EndObject]), p.Pop());
        }
      }
    }
  }

  /** Whatever the text, the events sent are the beginning of a well-formed
      stream, and one whole value if the text is accepted. */
  lemma ParseWellFormed(fits: DoubleRange, s: string)
    ensures WellFormed(Parse(fits, s).events)
    ensures Parse(fits, s).Accepted? ==> Complete(Parse(fits, s).events)
  {
    ValueLeads(fits, SkipWs(s), START);
  }
}
