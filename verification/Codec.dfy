/** Texts and trees: what a text parses to, and the round trip of a tree. */
module Codec {
  import opened Text
  import opened Json
  import opened RoundTrip
  import R = ReaderSpec
  import G = Grammar
  import S = ReaderSound
  import C = ReaderComplete
  import W = WriterSpec
  import B = Builder
  import D = DocumentSpec
  import P = DocumentProofs
  import E = ReaderEvents

  // ------------------------------------------------ the tree of a syntax tree

  function TreeOf(fits: R.DoubleRange, v: G.Syntax): Value
    requires G.Valid(fits, v)
  {
    match v
    case Null => Value.Null
    case True => Value.Bool(true)
    case False => Value.Bool(false)
    case NaN => Value.Double("NaN")
    case Infinity => Value.Double("Infinity")
    case Number(n) => B.ScalarValue(n.Meaning(fits).value)
    case String(items) => Value.String(G.ItemsText(items))
    case EmptyArray(_) => Value.Array([])
    case Array(_, es) => Value.Array(TreesOf(fits, es))
    case EmptyObject(_) => Value.Object([])
    case Object(_, ms) => Value.Object(MembersOf(fits, ms))
  }

  function TreesOf(fits: R.DoubleRange, es: G.Elements): seq<Value>
    requires G.ValidElements(fits, es)
  {
    [TreeOf(fits, es.value)] + if es.MoreElements? then TreesOf(fits, es.tail) else []
  }

  function PairOf(fits: R.DoubleRange, p: G.Pair): Member
    requires G.ValidPair(fits, p)
  {
    Member(G.ItemsText(p.key), TreeOf(fits, p.value))
  }

  function MembersOf(fits: R.DoubleRange, ms: G.Members): seq<Member>
    requires G.ValidMembers(fits, ms)
  {
    [PairOf(fits, ms.pair)] + if ms.MoreMembers? then MembersOf(fits, ms.tail) else []
  }

  /** A syntax tree means the events of its tree. */
  lemma {:induction false} TreeMeaning(fits: R.DoubleRange, v: G.Syntax)
    requires G.Valid(fits, v)
    ensures G.Meaning(fits, v) == EventsOf(TreeOf(fits, v))
  {
    match v
    case EmptyArray(_) => Glue([StartArray], [], [EndArray]);
    case EmptyObject(_) => Glue([StartObject], [], [EndObject]);
    case Array(_, es) =>
      TreesMeaning(fits, es);
      Glue([StartArray], EventsOfAll(TreesOf(fits, es)), [EndArray]);
    case Object(_, ms) =>
      MembersMeaning(fits, ms);
      Glue([StartObject], EventsOfMembers(MembersOf(fits, ms)), [EndObject]);
    case _ =>
  }

  lemma {:induction false} TreesMeaning(fits: R.DoubleRange, es: G.Elements)
    requires G.ValidElements(fits, es)
    ensures G.ElementsMeaning(fits, es) == EventsOfAll(TreesOf(fits, es)) + [EndArray]
  {
    TreeMeaning(fits, es.value);
    var vs := TreesOf(fits, es);
    var head := EventsOf(vs[0]);
    if es.MoreElements? {
      TreesMeaning(fits, es.tail);
      assert vs[1..] == TreesOf(fits, es.tail);
      Glue(head, EventsOfAll(vs[1..]), [EndArray]);
    } else {
      assert vs[1..] == [];
      Glue(head, [], []);
    }
  }

  lemma {:induction false} MembersMeaning(fits: R.DoubleRange, ms: G.Members)
    requires G.ValidMembers(fits, ms)
    ensures G.MembersMeaning(fits, ms) == EventsOfMembers(MembersOf(fits, ms)) + [EndObject]
  {
    TreeMeaning(fits, ms.pair.value);
    var vs := MembersOf(fits, ms);
    var head := [Key(vs[0].key)] + EventsOf(vs[0].value);
    if ms.MoreMembers? {
      MembersMeaning(fits, ms.tail);
      assert vs[1..] == MembersOf(fits, ms.tail);
      Glue(head, EventsOfMembers(vs[1..]), [EndObject]);
    } else {
      assert vs[1..] == [];
      Glue(head, [], []);
    }
  }

  // -------------------------------------------------------------- documents

  /** What a document makes of a text: the error, the tree, or an assertion that
      fails. */
  datatype Outcome = Tree(root: Value) | Error(err: R.ParseError) | AssertionFails

  function ParseText(fits: R.DoubleRange, s: string): Outcome {
    var r := R.Parse(fits, s);
    match D.Run(D.FRESH, r.events)
    case None => AssertionFails
    case Some(d) => if r.Accepted? then Tree(d.root) else Error(r.err)
  }

  /** A document parses exactly the texts of the grammar, to the tree the text
      stands for; an assertion fails on such a text exactly if the tree repeats a
      key. */
  lemma ParsesExactly(fits: R.DoubleRange, g: G.Document)
    requires G.ValidDocument(fits, g)
    ensures var v := TreeOf(fits, g.value);
            ParseText(fits, G.ShowDocument(g)) == if B.DistinctKeys(v) then Tree(v) else AssertionFails
  {
    C.ParseComplete(fits, g);
    TreeMeaning(fits, g.value);
    P.DocumentBuilds(TreeOf(fits, g.value));
  }

  lemma ParsesOnlyGrammar(fits: R.DoubleRange, s: string) returns (g: G.Document)
    requires ParseText(fits, s).Tree?
    ensures G.ValidDocument(fits, g) && s == G.ShowDocument(g)
    ensures ParseText(fits, s) == Tree(TreeOf(fits, g.value))
    ensures B.DistinctKeys(TreeOf(fits, g.value))
  {
    g := S.ParseSound(fits, s);
    ParsesExactly(fits, g);
  }

  /** Whatever the text, no assertion of the document or of a writer that gets the
      same events fails, unless a key is repeated: the event that fails begins the
      value of a key that its object already has. */
  lemma OnlyDuplicateKeysFail(fits: R.DoubleRange, s: string)
    ensures W.PutAll(W.BLANK, R.Parse(fits, s).events).Some?
    ensures ParseText(fits, s).AssertionFails? ==>
            exists k: nat :: k < |R.Parse(fits, s).events| && FailsAt(R.Parse(fits, s).events, k)
  {
    var es := R.Parse(fits, s).events;
    E.ParseWellFormed(fits, s);
    W.NoAssertionFails(es);
    if D.Run(D.FRESH, es).None? {
      assert es[..|es|] == es;
      FirstFailure(es, |es|);
    }
  }

  /** After k events the document has a key waiting that its top object has. */
  ghost predicate FailsAt(es: seq<Event>, k: nat)
    requires k < |es|
  {
    && D.Run(D.FRESH, es[..k]).Some?
    && var d := D.Run(D.FRESH, es[..k]).value;
       && !es[k].Key? && !es[k].EndArray? && !es[k].EndObject?
       && d.stack != [] && D.Points(d.root, d.Top().value) && d.key.String?
       && var t := D.At(d.root, d.Top().value);
          t.Object? && B.HasKey(t.members, d.key.s)
  }

  lemma {:induction false} FirstFailure(es: seq<Event>, n: nat)
    requires WellFormed(es) && n <= |es| && D.Run(D.FRESH, es[..n]).None?
    ensures exists k: nat :: k < |es| && FailsAt(es, k)
    decreases n
  {
    if n > 0 {
      var k := n - 1;
      assert es[..n] == es[..k] + [es[k]];
      assert es == es[..n] + es[n..];
      AdvanceConcat(START, es[..n], es[n..]);
      AdvanceConcat(START, es[..k], [es[k]]);
      if D.Run(D.FRESH, es[..k]).None? {
        FirstFailure(es, k);
      } else {
        P.OnlyDuplicatesFail(es[..k], es[k]);
        assert FailsAt(es, k);
      }
    }
  }

  // -------------------------------------------------------------- round trip

  lemma {:induction false} NormalDistinct(v: Value)
    ensures B.DistinctKeys(Normal(v)) <==> B.DistinctKeys(v)
    decreases v, 1
  {
    match v
    case Array(es) =>
      forall i | 0 <= i < |es| ensures B.DistinctKeys(NormalAll(es)[i]) <==> B.DistinctKeys(es[i]) {
        NormalAllAt(es, i);
        NormalDistinct(es[i]);
      }
    case Object(ms) =>
      forall i | 0 <= i < |ms|
        ensures NormalMembers(ms)[i].key == ms[i].key
        ensures B.DistinctKeys(NormalMembers(ms)[i].value) <==> B.DistinctKeys(ms[i].value)
      {
        NormalMembersAt(ms, i);
        NormalDistinct(ms[i].value);
      }
    case _ =>
  }

  lemma {:induction false} NormalAllAt(es: seq<Value>, i: nat)
    requires i < |es|
    ensures NormalAll(es)[i] == Normal(es[i])
  {
    if i > 0 {
      NormalAllAt(es[1..], i - 1);
    }
  }

  lemma {:induction false} NormalMembersAt(ms: seq<Member>, i: nat)
    requires i < |ms|
    ensures NormalMembers(ms)[i] == Member(ms[i].key, Normal(ms[i].value))
  {
    if i > 0 {
      NormalMembersAt(ms[1..], i - 1);
    }
  }

  /** Every double-free tree with distinct plain keys survives writing and
      reading, with white space around it, but for Int64 values that fit an Int32. */
  lemma TreeRoundTrip(fits: R.DoubleRange, lead: string, v: Value, trail: string)
    requires Writable(v) && B.DistinctKeys(v) && AllWs(lead) && AllWs(trail)
    ensures W.PutAll(W.BLANK, EventsOf(v)) == Some(W.Printer([], true, W.TreeText(v)))
    ensures ParseText(fits, lead + (W.TreeText(v) + trail)) == Tree(Normal(v))
  {
    W.WriteTree(v);
    TextRoundTrip(fits, lead, v, trail);
    NormalDistinct(v);
    P.DocumentBuilds(Normal(v));
  }

  /** Without the key condition the round trip fails: this key's quotation mark is
      written unescaped and ends the key early. */
  lemma UnescapedKeyBreaks(fits: R.DoubleRange)
    ensures var v := Value.Object([Member("\"", Value.Null)]);
            R.Parse(fits, W.TreeText(v)) == R.Rejected(R.MISS_COLON, [StartObject, Key("")])
  {
    var t, u, w := "{\"\"\":null}", "\"\"\":null}", "\":null}";
    KeyText();
    BareKey(fits, u, w);
    assert R.Rest(t) == u && SkipWs(u) == u && SkipWs(t) == t;
    C.AtObject(fits, t, u);
    assert [StartObject] + [Key("")] == [StartObject, Key("")];
    hide R.ParseMembers, R.ParseValue;
  }

  lemma KeyText()
    ensures W.TreeText(Value.Object([Member("\"", Value.Null)])) == "{\"\"\":null}"
  {
    var m := Member("\"", Value.Null);
    assert W.PairText(m) == "\"\"\":null";
    assert W.MembersText([m]) == W.PairText(m) + "";
  }

  /** A key that its own quotation mark ends at once, and no colon behind. */
  lemma BareKey(fits: R.DoubleRange, u: string, w: string)
    requires u == "\"\"" + w && w != "" && w[0] == '"'
    ensures R.ParseMembers(fits, u) == R.Stopped(R.MISS_COLON, [Key("")])
  {
    assert u[1..][1..] == w && SkipWs(w) == w;
    assert R.ScanChars(u[1..]) == R.Chars("", w);
    assert R.ParseMember(fits, u) == R.Stopped(R.MISS_COLON, [Key("")]);
    R.BehindMember(fits, u);
    hide R.ParseMember, R.ParseMembers, R.ScanChars;
  }
}
