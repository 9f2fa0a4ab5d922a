/** The document handler as it is written, and what parsing a text into a
    document yields. */
module Document {
  import opened Text
  import opened Json
  import opened DocumentSpec
  import R = ReaderSpec
  import Reader

  class Document {
    var root: Value
    var seeValue: bool
    var stack: seq<Level>
    var key: Value

    ghost function State(): Doc
      reads this
    {
      Doc(root, seeValue, stack, key)
    }

    constructor ()
      ensures State() == FRESH
    {
      root, seeValue, stack, key := Value.Null, false, [], Value.Null;
    }

    /** Its precondition is the assertions of the source. */
    method AddValue(x: Value) returns (pointer: seq<nat>)
      requires MayAdd(State(), x)
      modifies this
      ensures (State(), pointer) == DocumentSpec.AddValue(old(State()), x)
    {
      if !seeValue {
        seeValue := true;
        root := x;
        return [];
      }
      var top := stack[|stack| - 1];
      var t := At(root, top.value);
      if t.Array? {
        root := PushAt(root, top.value, "", x);
        pointer := top.value + [Size(t)];
      } else if top.valueCount % 2 == 0 {
        key := x;
        pointer := [];
      } else {
        root := PushAt(root, top.value, key.s, x);
        key := Value.Null;
        pointer := top.value + [Size(t)];
      }
      stack := stack[..|stack| - 1] + [top.(valueCount := top.valueCount + 1)];
    }

    /** Null, Bool, Int32, Int64, Double, String and Key. */
    method Scalar(e: Event)
      requires (IsScalar(e) || e.Key?) && Step(State(), e).Some?
      modifies this
      ensures Step(old(State()), e) == Some(State())
    {
      var _ := AddValue(EventValue(e));
    }

    method StartObject()
      requires Step(State(), Event.StartObject).Some?
      modifies this
      ensures Step(old(State()), Event.StartObject) == Some(State())
    {
      var value := AddValue(Value.Object([]));
      stack := stack + [Level(value, 0)];
    }

    method StartArray()
      requires Step(State(), Event.StartArray).Some?
      modifies this
      ensures Step(old(State()), Event.StartArray) == Some(State())
    {
      var value := AddValue(Value.Array([]));
      stack := stack + [Level(value, 0)];
    }

    method EndObject()
      requires Step(State(), Event.EndObject).Some?
      modifies this
      ensures Step(old(State()), Event.EndObject) == Some(State())
    {
      stack := stack[..|stack| - 1];
    }

    method EndArray()
      requires Step(State(), Event.EndArray).Some?
      modifies this
      ensures Step(old(State()), Event.EndArray) == Some(State())
    {
      stack := stack[..|stack| - 1];
    }

    method Take(e: Event)
      requires Step(State(), e).Some?
      modifies this
      ensures Step(old(State()), e) == Some(State())
    {
      match e {
        case StartArray => StartArray();
        case EndArray => EndArray();
        case StartObject => StartObject();
        case EndObject => EndObject();
        case _ => Scalar(e);
      }
    }

    method TakeAll(es: seq<Event>)
      requires Run(State(), es).Some?
      modifies this
      ensures Run(old(State()), es) == Some(State())
    {
      for i := 0 to |es|
        invariant Run(State(), es[i..]) == Run(old(State()), es)
      {
        assert es[i..][0] == es[i] && es[i..][1..] == es[i + 1..];
        Take(es[i]);
      }
    }

    /** Reads a text into a new document.  The reader learns nothing from its
        handler but that it accepts, so sending the events as they come or one
        after another at the end makes no difference.  The precondition says that
        no assertion fails, which is so unless the text repeats a key. */
    method Parse(fits: R.DoubleRange, json: string) returns (err: Option<R.ParseError>)
      requires State() == FRESH && Run(FRESH, R.Parse(fits, json).events).Some?
      modifies this
      ensures var r := R.Parse(fits, json);
              && err == (if r.Accepted? then None else Some(r.err))
              && Run(FRESH, r.events) == Some(State())
    {
      var input := new Reader.StringReadStream(json);
      var log := new Reader.EventLog();
      err := Reader.Parse(fits, input, log);
      var es := log.events;
      assert es == R.Parse(fits, json).events;
      TakeAll(es);
    }
  }
}
