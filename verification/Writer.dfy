/** The printing handler and Value::writeTo as they are written. */
module Writer {
  import opened Text
  import opened Json
  import opened WriterSpec
  import Itoa

  class Writer {
    var stack: seq<Level>
    var seeValue: bool
    /** Everything put into the stream. */
    var os: string

    ghost function State(): Printer
      reads this
    {
      Printer(stack, seeValue, os)
    }

    constructor ()
      ensures State() == BLANK
    {
      stack, seeValue, os := [], false, "";
    }

    method PutPrefix(isString: bool)
      requires MayPut(State(), isString)
      modifies this
      ensures State() == Prefix(old(State()))
    {
      seeValue := true;
      if stack == [] {
        return;
      }
      var top := stack[|stack| - 1];
      if top.inArray {
        if top.valueCount > 0 {
          os := os + ",";
        }
      } else if top.valueCount % 2 == 1 {
        os := os + ":";
      } else {
        if top.valueCount > 0 {
          os := os + ",";
        }
      }
      assert os == old(os) + Separator(old(State()));
      stack := stack[..|stack| - 1] + [top.(valueCount := top.valueCount + 1)];
    }

    method Null()
      requires Put(State(), Event.Null).Some?
      modifies this
      ensures Put(old(State()), Event.Null) == Some(State())
    {
      PutPrefix(false);
      os := os + "null";
    }

    method Bool(b: bool)
      requires Put(State(), Event.Bool(b)).Some?
      modifies this
      ensures Put(old(State()), Event.Bool(b)) == Some(State())
    {
      PutPrefix(false);
      os := os + if b then "true" else "false";
    }

    method Int32(i32: int32)
      requires Put(State(), Event.Int32(i32)).Some?
      modifies this
      ensures Put(old(State()), Event.Int32(i32)) == Some(State())
    {
      PutPrefix(false);
      var buf := new char[11];
      var cnt := Itoa.Itoa32(i32, buf);
      os := os + buf[..cnt];
    }

    method Int64(i64: int64)
      requires Put(State(), Event.Int64(i64)).Some?
      modifies this
      ensures Put(old(State()), Event.Int64(i64)) == Some(State())
    {
      PutPrefix(false);
      var buf := new char[20];
      var cnt := Itoa.Itoa64(i64, buf);
      os := os + buf[..cnt];
    }

    /** The number formatting of doubles is not modelled: the text stands for the
        double. */
    method Double(text: string)
      requires Put(State(), Event.Double(text)).Some?
      modifies this
      ensures Put(old(State()), Event.Double(text)) == Some(State())
    {
      PutPrefix(false);
      os := os + text;
    }

    /** What is put for a character of a string. */
    static method Escaped(c: char) returns (text: string)
      ensures text == CharText(c)
    {
      if c == '"' {
        return "\\\"";
      } else if c == 0x08 as char {
        return "\\b";
      } else if c == 0x0C as char {
        return "\\f";
      } else if c == '\n' {
        return "\\n";
      } else if c == '\r' {
        return "\\r";
      } else if c == '\t' {
        return "\\t";
      } else if c == '\\' {
        return "\\\\";
      } else if c as int < 0x20 {
        return "\\u00" + [HexDigit(c as int / 16)] + [HexDigit(c as int % 16)];
      } else {
        return [c];
      }
    }

    method String(s: string)
      requires Put(State(), Event.String(s)).Some?
      modifies this
      ensures Put(old(State()), Event.String(s)) == Some(State())
    {
      PutPrefix(true);
      Glue(os, "\"", CharsText(s));
      Glue(os, "\"" + CharsText(s), "\"");
      Glue("\"", CharsText(s), "\"");
      os := os + "\"";
      PutChars(s);
      os := os + "\"";
    }

    method PutChars(s: string)
      modifies this`os
      ensures os == old(os) + CharsText(s)
    {
      hide CharText;
      for i := 0 to |s|
        invariant os + CharsText(s[i..]) == old(os) + CharsText(s)
      {
        var c := s[i];
        Glue(os, CharText(c), CharsText(s[i + 1..]));
        assert s[i..][1..] == s[i + 1..];
        var text := Escaped(c);
        os := os + text;
      }
      Glue(os, "", "");
    }

    method StartObject()
      requires Put(State(), Event.StartObject).Some?
      modifies this
      ensures Put(old(State()), Event.StartObject) == Some(State())
    {
      PutPrefix(false);
      stack := stack + [Level(false, 0)];
      os := os + "{";
    }

    /** Keys are put as they are, without escapes. */
    method Key(s: string)
      requires Put(State(), Event.Key(s)).Some?
      modifies this
      ensures Put(old(State()), Event.Key(s)) == Some(State())
    {
      PutPrefix(true);
      Glue(os, "\"", s);
      Glue(os, "\"" + s, "\"");
      Glue("\"", s, "\"");
      os := os + "\"";
      os := os + s;
      os := os + "\"";
    }

    method EndObject()
      requires Put(State(), Event.EndObject).Some?
      modifies this
      ensures Put(old(State()), Event.EndObject) == Some(State())
    {
      stack := stack[..|stack| - 1];
      os := os + "}";
    }

    method StartArray()
      requires Put(State(), Event.StartArray).Some?
      modifies this
      ensures Put(old(State()), Event.StartArray) == Some(State())
    {
      PutPrefix(false);
      stack := stack + [Level(true, 0)];
      os := os + "[";
    }

    method EndArray()
      requires Put(State(), Event.EndArray).Some?
      modifies this
      ensures Put(old(State()), Event.EndArray) == Some(State())
    {
      stack := stack[..|stack| - 1];
      os := os + "]";
    }
  }

  /** Value::writeTo into a writer: wherever a value may come, its text follows. */
  method WriteTo(v: Value, w: Writer)
    requires Awaits(w.State())
    modifies w
    ensures PutAll(old(w.State()), EventsOf(v)) == Some(w.State())
    ensures w.State() == Printed(old(w.State()), TreeText(v))
    decreases v, 1
  {
    TreePrints(w.State(), v);
    PutOne(w.State(), EventsOf(v)[0]);
    match v {
      case Null => w.Null();
      case Bool(b) => w.Bool(b);
      case Int32(i) => w.Int32(i);
      case Int64(i) => w.Int64(i);
      case Double(t) => w.Double(t);
      case String(s) => w.String(s);
      case Array(es) => WriteArray(es, w);
      case Object(ms) => WriteObject(ms, w);
    }
  }

  method WriteArray(es: seq<Value>, w: Writer)
    requires Awaits(w.State())
    modifies w
    ensures PutAll(old(w.State()), [StartArray] + EventsOfAll(es) + [EndArray]) == Some(w.State())
    decreases es, 0
  {
    ghost var w0 := w.State();
    Opened(w0, StartArray);
    w.StartArray();
    ghost var w1 := w.State();
    ElementsPrint(w1, es);
    for i := 0 to |es|
      invariant w.stack != [] && w.State().Top().inArray && w.seeValue
      invariant PutAll(w.State(), EventsOfAll(es[i..])) == PutAll(w1, EventsOfAll(es))
    {
      ElementsFrom(es, i);
      PutConcat(w.State(), EventsOf(es[i]), EventsOfAll(es[i + 1..]));
      WriteTo(es[i], w);
    }
    ghost var w2 := w.State();
    w.EndArray();
    Finished(w0, StartArray, w1, EventsOfAll(es), w2, EndArray);
  }

  method WriteObject(ms: seq<Member>, w: Writer)
    requires Awaits(w.State())
    modifies w
    ensures PutAll(old(w.State()), [StartObject] + EventsOfMembers(ms) + [EndObject]) == Some(w.State())
    decreases ms, 0
  {
    ghost var w0 := w.State();
    Opened(w0, StartObject);
    w.StartObject();
    ghost var w1 := w.State();
    MembersPrint(w1, ms);
    for i := 0 to |ms|
      invariant w.stack != [] && !w.State().Top().inArray && w.seeValue
      invariant w.State().Top().valueCount % 2 == 0
      invariant PutAll(w.State(), EventsOfMembers(ms[i..])) == PutAll(w1, EventsOfMembers(ms))
    {
      MembersFrom(ms, i);
      PutConcat(w.State(), PairEvents(ms[i]), EventsOfMembers(ms[i + 1..]));
      WritePair(ms[i], w);
    }
    ghost var w2 := w.State();
    w.EndObject();
    Finished(w0, StartObject, w1, EventsOfMembers(ms), w2, EndObject);
  }

  lemma ElementsFrom(es: seq<Value>, i: nat)
    requires i < |es|
    ensures EventsOfAll(es[i..]) == EventsOf(es[i]) + EventsOfAll(es[i + 1..])
  {
    assert es[i..][1..] == es[i + 1..];
  }

  lemma MembersFrom(ms: seq<Member>, i: nat)
    requires i < |ms|
    ensures EventsOfMembers(ms[i..]) == PairEvents(ms[i]) + EventsOfMembers(ms[i + 1..])
  {
    assert ms[i..][1..] == ms[i + 1..];
  }

  function PairEvents(m: Member): seq<Event> { [Event.Key(m.key)] + EventsOf(m.value) }

  method WritePair(m: Member, w: Writer)
    requires w.stack != [] && !w.State().Top().inArray && w.seeValue
    requires w.State().Top().valueCount % 2 == 0
    modifies w
    ensures PutAll(old(w.State()), PairEvents(m)) == Some(w.State())
    ensures w.stack != [] && !w.State().Top().inArray && w.seeValue
    ensures w.State().Top().valueCount % 2 == 0
    decreases m, 2
  {
    hide EventsOf, TreeText;
    ghost var x := w.State();
    Even(x.Top().valueCount);
    PairPrints(x, m);
    PutConcat(x, [Event.Key(m.key)], EventsOf(m.value));
    PutOne(x, Event.Key(m.key));
    w.Key(m.key);
    WriteTo(m.value, w);
  }

  lemma Finished(w0: Printer, opening: Event, w1: Printer, body: seq<Event>, w2: Printer, closing: Event)
    requires Put(w0, opening) == Some(w1) && PutAll(w1, body) == Some(w2)
    ensures PutAll(w0, [opening] + body + [closing]) == Put(w2, closing)
  {
    PutOne(w0, opening);
    PutConcat(w0, [opening], body);
    PutConcat(w0, [opening] + body, [closing]);
    PutOne(w2, closing);
  }
}
