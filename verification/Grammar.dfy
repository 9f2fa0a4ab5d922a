/** The language the reader accepts, as syntax trees that know their own text.
    This is RFC 8259 with the extensions of the code: NaN, Infinity, the integer
    suffixes, and strings that may hold a raw 0x00 or a lone low surrogate. */
module Grammar {
  import opened Text
  import opened Json
  import opened ReaderSpec
  import Utf8

  datatype Syntax =
    | Null
    | True
    | False
    | NaN
    | Infinity
    | Number(number: NumberText)
    | String(items: seq<Item>)
    | EmptyArray(gap: string)
    | Array(gap: string, elems: Elements)
    | EmptyObject(gap: string)
    | Object(gap: string, members: Members)

  /** `after` is the white space behind a value, `before` that behind a comma. */
  datatype Elements =
    | LastElement(value: Syntax, after: string)
    | MoreElements(value: Syntax, after: string, before: string, tail: Elements)

  datatype Pair = Pair(key: seq<Item>, preColon: string, postColon: string, value: Syntax)

  datatype Members =
    | LastMember(pair: Pair, after: string)
    | MoreMembers(pair: Pair, after: string, before: string, tail: Members)

  /** One item of a string literal. */
  datatype Item =
    | Raw(c: char)
    | Escape(c: char)
    | Unicode(hex: string)
    | Surrogates(high: string, low: string)

  // ------------------------------------------------------------------- text

  function ShowItem(i: Item): string {
    match i
    case Raw(c) => [c]
    case Escape(c) => "\\" + [c]
    case Unicode(h) => "\\u" + h
    case Surrogates(h, l) => "\\u" + h + "\\u" + l
  }

  function ShowItems(items: seq<Item>): string {
    if items == [] then [] else ShowItem(items[0]) + ShowItems(items[1..])
  }

  function ShowString(items: seq<Item>): string { "\"" + (ShowItems(items) + "\"") }

  function Show(v: Syntax): string {
    match v
    case Null => "null"
    case True => "true"
    case False => "false"
    case NaN => "NaN"
    case Infinity => "Infinity"
    case Number(n) => n.Show()
    case String(items) => ShowString(items)
    case EmptyArray(gap) => "[" + (gap + "]")
    case Array(gap, es) => "[" + (gap + ShowElements(es))
    case EmptyObject(gap) => "{" + (gap + "}")
    case Object(gap, ms) => "{" + (gap + ShowMembers(ms))
  }

  function ShowElements(es: Elements): string {
    match es
    case LastElement(v, after) => Show(v) + (after + "]")
    case MoreElements(v, after, before, tail) =>
      Show(v) + (after + ("," + (before + ShowElements(tail))))
  }

  function ShowPair(p: Pair): string {
    ShowString(p.key) + (p.preColon + (":" + (p.postColon + Show(p.value))))
  }

  function ShowMembers(ms: Members): string {
    match ms
    case LastMember(p, after) => ShowPair(p) + (after + "}")
    case MoreMembers(p, after, before, tail) =>
      ShowPair(p) + (after + ("," + (before + ShowMembers(tail))))
  }

  // --------------------------------------------------------------- validity

  predicate ValidItem(i: Item) {
    match i
    case Raw(c) => c != '"' && c != '\\' && !IsControl(c)
    case Escape(c) => SimpleEscape(c).Some?
    case Unicode(h) => |h| == 4 && AllHex(h) && !Utf8.IsHigh(HexValue(h))
    case Surrogates(h, l) =>
      && |h| == 4 && AllHex(h) && Utf8.IsHigh(HexValue(h))
      && |l| == 4 && AllHex(l) && Utf8.IsLow(HexValue(l))
  }

  predicate ValidItems(items: seq<Item>) {
    items == [] || (ValidItem(items[0]) && ValidItems(items[1..]))
  }

  predicate Valid(fits: DoubleRange, v: Syntax) {
    match v
    case Number(n) => n.Valid() && n.Meaning(fits).Some?
    case String(items) => ValidItems(items)
    case EmptyArray(gap) => AllWs(gap)
    case Array(gap, es) => AllWs(gap) && ValidElements(fits, es)
    case EmptyObject(gap) => AllWs(gap)
    case Object(gap, ms) => AllWs(gap) && ValidMembers(fits, ms)
    case _ => true
  }

  predicate ValidElements(fits: DoubleRange, es: Elements) {
    && AllWs(es.after) && Valid(fits, es.value)
    && (es.MoreElements? ==> AllWs(es.before) && ValidElements(fits, es.tail))
  }

  predicate ValidPair(fits: DoubleRange, p: Pair) {
    ValidItems(p.key) && AllWs(p.preColon) && AllWs(p.postColon) && Valid(fits, p.value)
  }

  predicate ValidMembers(fits: DoubleRange, ms: Members) {
    && AllWs(ms.after) && ValidPair(fits, ms.pair)
    && (ms.MoreMembers? ==> AllWs(ms.before) && ValidMembers(fits, ms.tail))
  }

  // ---------------------------------------------------------------- meaning

  /** The characters an item stands for. */
  function ItemText(i: Item): string
    requires ValidItem(i)
  {
    match i
    case Raw(c) => [c]
    case Escape(c) => [SimpleEscape(c).value]
    case Unicode(h) => Utf8.Encode(HexValue(h))
    case Surrogates(h, l) => Utf8.Encode(Utf8.Combine(HexValue(h), HexValue(l)))
  }

  function ItemsText(items: seq<Item>): string
    requires ValidItems(items)
  {
    if items == [] then [] else ItemText(items[0]) + ItemsText(items[1..])
  }

  /** The events a text stands for. */
  function Meaning(fits: DoubleRange, v: Syntax): seq<Event>
    requires Valid(fits, v)
  {
    match v
    case Null => [Event.Null]
    case True => [Event.Bool(true)]
    case False => [Event.Bool(false)]
    case NaN => [Event.Double("NaN")]
    case Infinity => [Event.Double("Infinity")]
    case Number(n) => [n.Meaning(fits).value]
    case String(items) => [Event.String(ItemsText(items))]
    case EmptyArray(_) => [StartArray, EndArray]
    case Array(_, es) => [StartArray] + ElementsMeaning(fits, es)
    case EmptyObject(_) => [StartObject, EndObject]
    case Object(_, ms) => [StartObject] + MembersMeaning(fits, ms)
  }

  function ElementsMeaning(fits: DoubleRange, es: Elements): seq<Event>
    requires ValidElements(fits, es)
  {
    Meaning(fits, es.value)
    + if es.MoreElements? then ElementsMeaning(fits, es.tail) else [EndArray]
  }

  function PairMeaning(fits: DoubleRange, p: Pair): seq<Event>
    requires ValidPair(fits, p)
  {
    [Key(ItemsText(p.key))] + Meaning(fits, p.value)
  }

  function MembersMeaning(fits: DoubleRange, ms: Members): seq<Event>
    requires ValidMembers(fits, ms)
  {
    PairMeaning(fits, ms.pair)
    + if ms.MoreMembers? then MembersMeaning(fits, ms.tail) else [EndObject]
  }

  /** A document: one value, with white space around it. */
  datatype Document = Document(lead: string, value: Syntax, trail: string)

  predicate ValidDocument(fits: DoubleRange, d: Document) {
    AllWs(d.lead) && Valid(fits, d.value) && AllWs(d.trail)
  }

  function ShowDocument(d: Document): string { d.lead + (Show(d.value) + d.trail) }
}
