/** Printer and parser undo each other.

    `Data` is what a caller of the printer means, a value printed earlier and spliced in included; `OpsOf` the
    calls it makes; `Concrete` the syntax tree of the text that results. The document is accepted by the strict
    walk and its members read back. */
module JsonRoundTrip {
  import opened Bytes
  import opened JsonGrammar
  import opened JsonParse
  import opened JsonLookup
  import opened JsonChecked
  import opened JsonLenient
  import opened JsonRead
  import W = JsonWriter

  datatype Data =
    | DText(text: string)
    | DInt(i: int)
    | DFlag(flag: bool)
    | DNull
    | DRaw(value: Value)
    | DBox(isObject: bool, entries: Entries)

  datatype Entries = NoEntries | Entry(name: string, value: Data, rest: Entries)

  // ------------------------------------------------------ escaped strings

  /** A control byte that has no short escape and is written as four digits. */
  predicate IsOddControl(c: char) {
    IsControl(c) && c != '\n' && c != '\r' && c != '\t' && c != '\U{0008}' && c != '\U{000C}'
  }

  predicate IsPlain(text: string) {
    forall k | 0 <= k < |text| :: !IsOddControl(text[k])
  }

  lemma HexIsHex(n: nat)
    requires n < 16
    ensures IsHex(W.Hex(n))
  {
  }

  lemma EscapeOfBody(c: char, rest: string, unicode: bool)
    ensures IsBody(W.EscapeOf(c) + rest, unicode) <==> (IsOddControl(c) ==> unicode) && IsBody(rest, unicode)
  {
    var t := W.EscapeOf(c) + rest;
    if IsOddControl(c) {
      HexIsHex(c as int / 16);
      HexIsHex(c as int % 16);
      assert t[6..] == rest;
    } else if |W.EscapeOf(c)| == 2 {
      assert t[2..] == rest;
    } else {
      assert t[1..] == rest;
    }
  }

  /** Whatever the text, its escaped form is a string body; as a member name, only when no byte of it
      needs a four-digit escape. */
  lemma {:induction false} EscapeIsBody(text: string, unicode: bool)
    ensures IsBody(W.Escape(text), unicode) <==> unicode || IsPlain(text)
    decreases |text|
  {
    if text != "" {
      EscapeOfBody(text[0], W.Escape(text[1..]), unicode);
      EscapeIsBody(text[1..], unicode);
      assert text == [text[0]] + text[1..];
    }
  }

  lemma UnescapeOf(c: char, rest: string)
    ensures Unescape(W.EscapeOf(c) + rest) == if IsOddControl(c) then None else Prepend(c, Unescape(rest))
  {
    var t := W.EscapeOf(c) + rest;
    if |W.EscapeOf(c)| == 2 {
      assert t[2..] == rest;
    } else if !IsOddControl(c) {
      assert t[1..] == rest;
    }
  }

  /** Reading back an escaped text gives the text, or fails when it held a control byte other than the five
      that have a short escape. */
  lemma {:induction false} UnescapeEscape(text: string)
    ensures Unescape(W.Escape(text)) == if IsPlain(text) then Some(text) else None
    decreases |text|
  {
    if text != "" {
      UnescapeOf(text[0], W.Escape(text[1..]));
      UnescapeEscape(text[1..]);
      assert text == [text[0]] + text[1..];
    }
  }

  lemma EscapeInjective(a: string, b: string)
    requires IsPlain(a) && IsPlain(b) && W.Escape(a) == W.Escape(b)
    ensures a == b
  {
    UnescapeEscape(a);
    UnescapeEscape(b);
  }

  // -------------------------------------------------------------- numbers

  lemma {:induction false} DigitsReadBack(n: nat)
    ensures AllDigits(W.DigitsOf(n)) && DigitsValue(W.DigitsOf(n)) == n
    ensures n > 0 ==> W.DigitsOf(n) != "" && W.DigitsOf(n)[0] != '0'
  {
    if n > 0 {
      DigitsReadBack(n / 10);
      DigitsGrow(W.DigitsOf(n / 10), W.DigitChar(n % 10));
    }
  }

  lemma NaturalReadsBack(n: nat)
    ensures IsWhole(W.NaturalText(n)) && DigitsValue(W.NaturalText(n)) == n
  {
    DigitsReadBack(n);
    if n == 0 {
      DigitsGrow("", '0');
      assert "" + ['0'] == "0";
    }
  }

  /** A printed integer states its value, and reads back equal as long as its magnitude fits; the most negative
      64-bit integer, which can be printed, is the one that does not. */
  lemma IntegerReadsBack(i: int, overflow: Overflow)
    ensures IntegerIn(W.IntegerText(i)) == Some(i)
    ensures ReadIn(W.IntegerText(i), overflow)
         == if -MAX_INT64 <= i <= MAX_INT64 then Some(i) else Overflown(W.IntegerText(i), overflow)
  {
    var n := if i < 0 then -i else i;
    var digits := W.NaturalText(n);
    NaturalReadsBack(n);
    assert Unsigned(W.IntegerText(i)) == digits by {
      assert i < 0 ==> W.IntegerText(i)[1..] == digits;
      assert i >= 0 ==> IsDigit(digits[0]);
    }
    hide W.NaturalText, Overflows;
    assert digits[..|digits|] == digits;
    if n <= MAX_INT64 {
      Fits(W.IntegerText(i), |digits|);
    } else {
      Outgrows(W.IntegerText(i), |digits|);
    }
  }

  function NumberFor(i: int): Number {
    Number(if i < 0 then "-" else "", W.NaturalText(if i < 0 then -i else i), "", "")
  }

  lemma NumberForText(i: int)
    ensures IsNumber(NumberFor(i)) && NumberText(NumberFor(i)) == W.IntegerText(i)
  {
    NaturalReadsBack(if i < 0 then -i else i);
  }

  // ------------------------------------------------ the tree that is printed

  function OpsOf(d: Data): seq<W.Op>
    decreases d, 1
  {
    match d
    case DText(t) => [W.Text(t)]
    case DInt(i) => [W.Integer(i)]
    case DFlag(b) => [W.Flag(b)]
    case DNull => [W.Null]
    case DRaw(v) => [W.Raw(ValueText(v))]
    case DBox(isObject, entries) => [W.Begin(isObject)] + (EntryOps(isObject, entries) + [W.End(isObject)])
  }

  function EntryOps(isObject: bool, es: Entries): seq<W.Op>
    decreases es, 1
  {
    match es
    case NoEntries => []
    case Entry(name, value, rest) =>
      (if isObject then [W.Key(name)] else []) + (OpsOf(value) + EntryOps(isObject, rest))
  }

  function Concrete(d: Data): Value
    decreases d, 1
  {
    match d
    case DText(t) => Str(W.Escape(t))
    case DInt(i) => Num(NumberFor(i))
    case DFlag(b) => Word(if b then "true" else "false")
    case DNull => Word("null")
    case DRaw(v) => v
    case DBox(isObject, entries) => Box(isObject, ConcreteItems(isObject, entries))
  }

  function ConcreteItems(isObject: bool, es: Entries): Items
    decreases es, 1
  {
    match es
    case NoEntries => Blank("")
    case Entry(name, value, rest) =>
      var item := ConcreteItem(isObject, name, value);
      if rest.NoEntries? then Last(item) else More(item, ConcreteItems(isObject, rest))
  }

  function ConcreteItem(isObject: bool, name: string, value: Data): Item
    decreases value, 2
  {
    Item("", if isObject then Named(W.Escape(name), "", "") else NoName, Concrete(value), "")
  }

  function Render(d: Data): string { ValueText(Concrete(d)) }

  function DataHeight(d: Data): nat
    decreases d, 1
  {
    match d
    case DBox(_, entries) => 1 + EntriesHeight(entries)
    case DRaw(v) => Height(v)
    case _ => 0
  }

  function EntriesHeight(es: Entries): nat
    decreases es, 1
  {
    match es
    case NoEntries => 0
    case Entry(_, value, rest) => Max(DataHeight(value), EntriesHeight(rest))
  }

  /** The brackets that the printer has to keep track of; those of a spliced value are not its concern. */
  function PrintHeight(d: Data): nat
    decreases d, 1
  {
    if d.DBox? then 1 + EntriesPrintHeight(d.entries) else 0
  }

  function EntriesPrintHeight(es: Entries): nat
    decreases es, 1
  {
    match es
    case NoEntries => 0
    case Entry(_, value, rest) => Max(PrintHeight(value), EntriesPrintHeight(rest))
  }

  function EntryNames(es: Entries): seq<string> {
    match es
    case NoEntries => []
    case Entry(name, _, rest) => [name] + EntryNames(rest)
  }

  /** No name needs a four-digit escape, and what is spliced in is a value of the same kind. */
  predicate Printable(d: Data)
    decreases d, 1
  {
    match d
    case DRaw(v) => IsValue(v)
    case DBox(isObject, entries) =>
      && (isObject ==> forall n | n in EntryNames(entries) :: IsPlain(n))
      && PrintableEntries(entries)
    case _ => true
  }

  predicate PrintableEntries(es: Entries)
    decreases es, 1
  {
    es.Entry? ==> Printable(es.value) && PrintableEntries(es.rest)
  }

  /** Every object has distinct names, those spliced in included. */
  predicate DistinctNames(d: Data)
    decreases d, 1
  {
    match d
    case DRaw(v) => Distinct(v)
    case DBox(isObject, entries) => (isObject ==> NoRepeats(EntryNames(entries))) && DistinctEntries(entries)
    case _ => true
  }

  predicate DistinctEntries(es: Entries)
    decreases es, 1
  {
    es.Entry? ==> DistinctNames(es.value) && DistinctEntries(es.rest)
  }

  // ------------------------------------------------------------- printing

  lemma {:induction false} EndlessPut(p: W.Page, text: string)
    ensures W.PutText(p, W.Endless, text) == p.(text := p.text + text, required := p.required + |text|)
    decreases |text|
  {
    if text != "" {
      EndlessPut(W.Put(p, W.Endless, text[0]), text[1..]);
      assert p.text + [text[0]] + text[1..] == p.text + text;
    } else {
      assert p.text + "" == p.text;
    }
  }

  lemma {:induction false} RunAppend(p: W.Page, paper: W.Paper, a: seq<W.Op>, b: seq<W.Op>)
    ensures W.Run(p, paper, a + b) == W.Run(W.Run(p, paper, a), paper, b)
    decreases |a|
  {
    hide W.Apply;
    if a == [] {
      assert a + b == b;
    } else {
      assert (a + b)[1..] == a[1..] + b;
      RunAppend(W.Apply(p, paper, a[0]), paper, a[1..], b);
    }
  }

  lemma RunOne(p: W.Page, paper: W.Paper, op: W.Op)
    ensures W.Run(p, paper, [op]) == W.Apply(p, paper, op)
  {
    hide W.Apply;
    assert W.Run(W.Apply(p, paper, op), paper, [op][1..]) == W.Apply(p, paper, op);
  }

  /** A page with more text and a new comma state, all else equal. */
  function Extended(p: W.Page, text: string, comma: bool): W.Page {
    p.(text := p.text + text, required := p.required + |text|, comma := comma)
  }

  lemma ExtendedTwice(p: W.Page, a: string, c: bool, b: string, d: bool)
    ensures Extended(Extended(p, a, c), b, d) == Extended(p, a + b, d)
  {
    assert p.text + a + b == p.text + (a + b);
  }

  function Comma(p: W.Page): string { if p.comma then "," else "" }

  lemma EndlessValue(p: W.Page, text: string)
    ensures W.PutValue(p, W.Endless, text) == Extended(p, Comma(p) + text, true)
  {
    EndlessPut(W.Separate(p, W.Endless), text);
    assert p.text + (Comma(p) + text) == (p.text + Comma(p)) + text;
  }

  lemma EndlessKey(p: W.Page, name: string)
    ensures W.Apply(p, W.Endless, W.Key(name)) == Extended(p, Comma(p) + (W.Quoted(name) + ":"), false)
  {
    hide W.Escape;
    var t := W.Quoted(name) + ":";
    EndlessPut(W.Separate(p, W.Endless), t);
    assert p.text + (Comma(p) + t) == (p.text + Comma(p)) + t;
  }

  /** The items of a container without their closing bracket. */
  function EntriesText(isObject: bool, es: Entries): string {
    match es
    case NoEntries => ""
    case Entry(name, value, rest) =>
      ItemText(ConcreteItem(isObject, name, value))
      + (if rest.NoEntries? then "" else "," + EntriesText(isObject, rest))
  }

  lemma {:induction false} EntriesTextCloses(isObject: bool, es: Entries)
    ensures ItemsText(isObject, ConcreteItems(isObject, es)) == EntriesText(isObject, es) + [Close(isObject)]
    decreases es, 0
  {
    hide ItemText, Close;
    match es {
      case NoEntries =>
      case Entry(name, value, rest) =>
        var t := ItemText(ConcreteItem(isObject, name, value));
        if rest.Entry? {
          EntriesTextCloses(isObject, rest);
          assert t + ("," + (EntriesText(isObject, rest) + [Close(isObject)]))
              == t + ("," + EntriesText(isObject, rest)) + [Close(isObject)];
        } else {
          assert t + "" == t;
        }
    }
  }

  // The effect of the calls of a tree, call by call.

  function RunData(p: W.Page, paper: W.Paper, d: Data): W.Page
    decreases d, 1
  {
    match d
    case DText(t) => W.Apply(p, paper, W.Text(t))
    case DInt(i) => W.Apply(p, paper, W.Integer(i))
    case DFlag(b) => W.Apply(p, paper, W.Flag(b))
    case DNull => W.Apply(p, paper, W.Null)
    case DRaw(v) => W.Apply(p, paper, W.Raw(ValueText(v)))
    case DBox(isObject, es) =>
      W.Apply(RunEntries(W.Apply(p, paper, W.Begin(isObject)), paper, isObject, es), paper, W.End(isObject))
  }

  function RunEntries(p: W.Page, paper: W.Paper, isObject: bool, es: Entries): W.Page
    decreases es, 1
  {
    match es
    case NoEntries => p
    case Entry(name, value, rest) =>
      RunEntries(RunData(if isObject then W.Apply(p, paper, W.Key(name)) else p, paper, value), paper, isObject, rest)
  }

  lemma {:induction false} OpsRun(p: W.Page, paper: W.Paper, d: Data)
    ensures W.Run(p, paper, OpsOf(d)) == RunData(p, paper, d)
    decreases d, 1
  {
    hide W.Apply, W.Run, EntryOps, RunEntries;
    match d {
      case DText(t) => RunOne(p, paper, W.Text(t));
      case DInt(i) => RunOne(p, paper, W.Integer(i));
      case DFlag(b) => RunOne(p, paper, W.Flag(b));
      case DNull => RunOne(p, paper, W.Null);
      case DRaw(v) => RunOne(p, paper, W.Raw(ValueText(v)));
      case DBox(isObject, es) =>
        var q := W.Apply(p, paper, W.Begin(isObject));
        RunAppend(p, paper, [W.Begin(isObject)], EntryOps(isObject, es) + [W.End(isObject)]);
        RunOne(p, paper, W.Begin(isObject));
        RunAppend(q, paper, EntryOps(isObject, es), [W.End(isObject)]);
        EntryOpsRun(q, paper, isObject, es);
        RunOne(RunEntries(q, paper, isObject, es), paper, W.End(isObject));
    }
  }

  lemma {:induction false} EntryOpsRun(p: W.Page, paper: W.Paper, isObject: bool, es: Entries)
    ensures W.Run(p, paper, EntryOps(isObject, es)) == RunEntries(p, paper, isObject, es)
    decreases es, 1
  {
    hide W.Apply, OpsOf, RunData;
    if es.Entry? {
      var tail := OpsOf(es.value) + EntryOps(isObject, es.rest);
      var q := if isObject then W.Apply(p, paper, W.Key(es.name)) else p;
      if isObject {
        RunAppend(p, paper, [W.Key(es.name)], tail);
        RunOne(p, paper, W.Key(es.name));
      } else {
        assert [] + tail == tail;
      }
      RunAppend(q, paper, OpsOf(es.value), EntryOps(isObject, es.rest));
      OpsRun(q, paper, es.value);
      EntryOpsRun(RunData(q, paper, es.value), paper, isObject, es.rest);
    }
  }

  /** Printing a tree on an endless page adds its text and nothing else. */
  lemma {:induction false} Prints(p: W.Page, d: Data)
    requires |p.stack| + PrintHeight(d) <= W.MAX_DEPTH
    ensures RunData(p, W.Endless, d) == Extended(p, Comma(p) + Render(d), true)
    decreases d, 1
  {
    hide W.PutText, W.Put, W.Escape, W.IntegerText, ItemsText, EntriesText, NumberText, ConcreteItems, W.PutValue,
         RunEntries;
    match d {
      case DText(t) =>
        EndlessValue(p, W.Quoted(t));
        assert W.Quoted(t) == "\"" + (W.Escape(t) + "\"");
      case DInt(i) =>
        EndlessValue(p, W.IntegerText(i));
        NumberForText(i);
      case DFlag(b) =>
        EndlessValue(p, if b then "true" else "false");
      case DNull =>
        EndlessValue(p, "null");
      case DRaw(v) =>
        EndlessValue(p, ValueText(v));
      case DBox(isObject, es) =>
        var q := Opened(p, isObject);
        EndlessBegin(p, isObject);
        PrintsEntries(q, isObject, es);
        hide W.Apply, Extended;
        PrintsBox(p, isObject, es);
    }
  }

  /** From the opening bracket to the closing one. */
  lemma PrintsBox(p: W.Page, isObject: bool, es: Entries)
    ensures
      var q := Opened(p, isObject);
      var r := Extended(q, (if es.Entry? then Comma(q) else "") + EntriesText(isObject, es), q.comma || es.Entry?);
      W.Apply(r, W.Endless, W.End(isObject)) == Extended(p, Comma(p) + Render(DBox(isObject, es)), true)
  {
    hide EntriesText, ConcreteItems, ItemsText, Close, Open, W.Apply;
    var q := Opened(p, isObject);
    var body := EntriesText(isObject, es);
    var r := Extended(q, (if es.Entry? then Comma(q) else "") + body, q.comma || es.Entry?);
    EndlessEnd(r, p.stack, isObject);
    EntriesTextCloses(isObject, es);
    assert r.text + [Close(isObject)] == p.text + (Comma(p) + ([Open(isObject)] + (body + [Close(isObject)])));
  }

  /** The page just after an opening bracket. */
  function Opened(p: W.Page, isObject: bool): W.Page {
    Extended(p, Comma(p) + [Open(isObject)], false).(stack := p.stack + [isObject])
  }

  lemma EndlessBegin(p: W.Page, isObject: bool)
    requires |p.stack| < W.MAX_DEPTH
    ensures W.Apply(p, W.Endless, W.Begin(isObject)) == Opened(p, isObject)
  {
    assert p.text + (Comma(p) + [Open(isObject)]) == (p.text + Comma(p)) + [Open(isObject)];
  }

  lemma EndlessEnd(r: W.Page, stack: seq<bool>, isObject: bool)
    requires r.stack == stack + [isObject]
    ensures W.Apply(r, W.Endless, W.End(isObject)) == Extended(r, [Close(isObject)], true).(stack := stack)
  {
    assert r.stack[..|r.stack| - 1] == stack;
  }

  lemma {:induction false} PrintsEntries(p: W.Page, isObject: bool, es: Entries)
    requires |p.stack| + EntriesPrintHeight(es) <= W.MAX_DEPTH
    ensures RunEntries(p, W.Endless, isObject, es)
         == Extended(p, (if es.Entry? then Comma(p) else "") + EntriesText(isObject, es), p.comma || es.Entry?)
    decreases es, 1
  {
    hide ItemText, W.Apply, RunData, ConcreteItem;
    match es {
      case NoEntries =>
        assert p.text + ("" + "") == p.text;
      case Entry(name, value, rest) =>
        var t := ItemText(ConcreteItem(isObject, name, value));
        PrintsEntry(p, isObject, name, value);
        var q := Extended(p, Comma(p) + t, true);
        PrintsEntries(q, isObject, rest);
        var tail := (if rest.Entry? then "," else "") + EntriesText(isObject, rest);
        ExtendedTwice(p, Comma(p) + t, true, tail, true);
        assert Comma(p) + t + tail == Comma(p) + EntriesText(isObject, es);
    }
  }

  lemma {:induction false} PrintsEntry(p: W.Page, isObject: bool, name: string, value: Data)
    requires |p.stack| + PrintHeight(value) <= W.MAX_DEPTH
    ensures RunData(if isObject then W.Apply(p, W.Endless, W.Key(name)) else p, W.Endless, value)
         == Extended(p, Comma(p) + ItemText(ConcreteItem(isObject, name, value)), true)
    decreases value, 2
  {
    hide W.Apply, RunData, W.Escape, ValueText, Concrete;
    var v := Render(value);
    var item := ItemText(ConcreteItem(isObject, name, value));
    if isObject {
      EndlessKey(p, name);
      var k := W.Quoted(name) + ":";
      Prints(Extended(p, Comma(p) + k, false), value);
      ExtendedTwice(p, Comma(p) + k, false, "" + v, true);
      KeyText(name, v);
      assert Comma(p) + k + ("" + v) == Comma(p) + (k + v);
      assert item == k + v;
    } else {
      Prints(p, value);
      assert "" + ("" + (v + "")) == v;
    }
  }

  lemma KeyText(name: string, v: string)
    ensures "" + (NameText(Named(W.Escape(name), "", "")) + (v + "")) == W.Quoted(name) + ":" + v
  {
    hide W.Escape;
  }

  // ----------------------------------------------------------- reading back

  /** The tree that is printed is well formed. */
  lemma {:induction false} ConcreteIsValue(d: Data)
    requires Printable(d)
    ensures IsValue(Concrete(d)) && Height(Concrete(d)) == DataHeight(d)
    decreases d, 1
  {
    hide W.Escape, NoRepeats, IsBody;
    match d {
      case DText(t) => EscapeIsBody(t, true);
      case DInt(i) => NumberForText(i);
      case DFlag(_) =>
      case DNull =>
      case DRaw(_) =>
      case DBox(isObject, es) =>
        ConcreteIsItems(isObject, es, true);
    }
  }

  /** And it repeats no name if the names are distinct. */
  lemma {:induction false} ConcreteIsDistinct(d: Data)
    requires Printable(d) && DistinctNames(d)
    ensures Distinct(Concrete(d))
    decreases d, 1
  {
    hide W.Escape, NoRepeats, IsPlain;
    match d {
      case DText(_) =>
      case DInt(_) =>
      case DFlag(_) =>
      case DNull =>
      case DRaw(_) =>
      case DBox(isObject, es) =>
        ItemsAreDistinct(isObject, es);
        if isObject {
          EscapedNamesDistinct(es);
        } else {
          NoneRepeat();
        }
    }
  }

  lemma {:induction false} ItemsAreDistinct(isObject: bool, es: Entries)
    requires PrintableEntries(es) && DistinctEntries(es)
    ensures DistinctBelow(ConcreteItems(isObject, es))
    ensures Names(ConcreteItems(isObject, es)) == if isObject then EscapedNames(es) else []
    decreases es, 1
  {
    if es.Entry? {
      ConcreteIsDistinct(es.value);
      if es.rest.Entry? {
        ItemsAreDistinct(isObject, es.rest);
      }
    }
    hide W.Escape, Concrete, Distinct, Printable, DistinctNames;
  }

  lemma NoneRepeat()
    ensures NoRepeats([])
  {
  }

  lemma {:induction false} ConcreteIsItems(isObject: bool, es: Entries, first: bool)
    requires PrintableEntries(es) && (first || es.Entry?)
    requires isObject ==> forall n | n in EntryNames(es) :: IsPlain(n)
    ensures var items := ConcreteItems(isObject, es);
      IsItems(isObject, items, first) && ItemsHeight(items) == EntriesHeight(es)
    decreases es, 1
  {
    if es.Entry? {
      ConcreteIsItem(isObject, es.name, es.value) by { NamesPlain(isObject, es); }
      if es.rest.Entry? {
        ConcreteIsItems(isObject, es.rest, false) by { NamesPlain(isObject, es); }
      }
    }
    hide W.Escape, IsItem, IsPlain, Height, DataHeight, ConcreteItem, PrintableEntries, EntryNames;
  }

  lemma NamesPlain(isObject: bool, es: Entries)
    requires isObject ==> forall n | n in EntryNames(es) :: IsPlain(n)
    ensures isObject && es.Entry? ==> IsPlain(es.name) && forall n | n in EntryNames(es.rest) :: IsPlain(n)
  {
    hide IsPlain;
    if isObject && es.Entry? {
      assert EntryNames(es)[0] == es.name;
      assert forall n | n in EntryNames(es.rest) :: n in EntryNames(es);
    }
  }

  lemma {:induction false} ConcreteIsItem(isObject: bool, name: string, value: Data)
    requires Printable(value) && (isObject ==> IsPlain(name))
    ensures var item := ConcreteItem(isObject, name, value);
      IsItem(isObject, item) && Height(item.value) == DataHeight(value)
    decreases value, 2
  {
    ConcreteIsValue(value);
    EscapeIsBody(name, false);
    PlainItem(isObject, W.Escape(name), Concrete(value));
    hide W.Escape, IsItem, IsBody, IsPlain, IsValue, Height, DataHeight, Concrete, Printable;
  }

  /** An item without white space. */
  lemma PlainItem(isObject: bool, raw: string, v: Value)
    requires IsValue(v) && (isObject ==> IsBody(raw, false))
    ensures var item := Item("", if isObject then Named(raw, "", "") else NoName, v, "");
      IsItem(isObject, item)
  {
    hide IsValue, IsBody;
  }

  function EscapedNames(es: Entries): seq<string> {
    match es
    case NoEntries => []
    case Entry(name, _, rest) => [W.Escape(name)] + EscapedNames(rest)
  }

  lemma {:induction false} EscapedNamesAre(es: Entries)
    ensures |EscapedNames(es)| == |EntryNames(es)|
    ensures forall i | 0 <= i < |EntryNames(es)| :: EscapedNames(es)[i] == W.Escape(EntryNames(es)[i])
  {
    hide W.Escape;
    if es.Entry? {
      EscapedNamesAre(es.rest);
    }
  }

  lemma EscapedNamesDistinct(es: Entries)
    requires NoRepeats(EntryNames(es)) && forall n | n in EntryNames(es) :: IsPlain(n)
    ensures NoRepeats(EscapedNames(es))
  {
    hide W.Escape, IsPlain;
    EscapedNamesAre(es);
    var names := EntryNames(es);
    forall i, j | 0 <= i < j < |names| ensures EscapedNames(es)[i] != EscapedNames(es)[j] {
      if W.Escape(names[i]) == W.Escape(names[j]) {
        EscapeInjective(names[i], names[j]);
      }
    }
  }

  /** Without spliced values the printer sees every level. */
  lemma {:induction false} PlainHeight(d: Data)
    requires !HasRaw(d)
    ensures DataHeight(d) == PrintHeight(d)
    decreases d, 1
  {
    if d.DBox? {
      PlainEntriesHeight(d.entries);
    }
  }

  lemma {:induction false} PlainEntriesHeight(es: Entries)
    requires !EntriesHaveRaw(es)
    ensures EntriesHeight(es) == EntriesPrintHeight(es)
    decreases es, 1
  {
    if es.Entry? {
      PlainHeight(es.value);
      PlainEntriesHeight(es.rest);
    }
  }

  predicate HasRaw(d: Data)
    decreases d, 1
  {
    d.DRaw? || (d.DBox? && EntriesHaveRaw(d.entries))
  }

  predicate EntriesHaveRaw(es: Entries)
    decreases es, 1
  {
    es.Entry? && (HasRaw(es.value) || EntriesHaveRaw(es.rest))
  }

  /** The printed text is a document with the printed tree as its only reading. */
  lemma PrintedParses(es: Entries)
    requires Printable(DBox(true, es))
    ensures
      var text := Render(DBox(true, es));
      ParseDocument(text) == Done(Document("", ConcreteItems(true, es), ""), |text|)
  {
    var text := Render(DBox(true, es));
    ConcreteIsValue(DBox(true, es));
    hide ItemsText, ConcreteItems, ParseDocument, IsItems, Printable;
    assert "" + (text + "") == text;
    ParseDocumentComplete(Document("", ConcreteItems(true, es), ""));
  }

  /** An object of at most twelve levels, written in a buffer: it comes out whole exactly when it fits, and
      the text is a document with the printed tree as its only reading. The strict walk admits it if its names
      are distinct, unless what was spliced in is too deep; without splicing it never is, since twelve is below
      its bound. */
  lemma PrintedIsAccepted(es: Entries, capacity: nat)
    requires Printable(DBox(true, es)) && PrintHeight(DBox(true, es)) <= W.MAX_DEPTH
    ensures
      var d := DBox(true, es);
      var page := W.Run(W.BLANK_PAGE, W.Sheet(capacity), OpsOf(d));
      && (W.IsValidPage(page) <==> |Render(d)| <= capacity)
      && (W.IsValidPage(page) ==> page.text == Render(d))
      && page.required == |Render(d)|
    ensures
      var text := Render(DBox(true, es));
      ParseDocument(text) == Done(Document("", ConcreteItems(true, es), ""), |text|)
    ensures !EntriesHaveRaw(es) ==> EntriesHeight(es) <= MAX_CHECKED_JSON_DEPTH
    ensures DistinctNames(DBox(true, es)) && EntriesHeight(es) <= MAX_CHECKED_JSON_DEPTH ==>
      && ItemsAdmit(ConcreteItems(true, es), MAX_CHECKED_JSON_DEPTH, true)
      && forall key ::
           CheckedFind(Render(DBox(true, es)), key) == Invalid <==>
             var member := MemberOf(ConcreteItems(true, es), key);
             member.Some? && KindOf(member.value) != ObjectKind
  {
    hide W.Run, OpsOf, ItemsText, ConcreteItems, ParseDocument, RunData, MemberOf, KindOf, CheckedFind, IsItems,
         ItemsHeight, DistinctNames;
    var d := DBox(true, es);
    if !EntriesHaveRaw(es) { PlainEntriesHeight(es); }
    W.Faithful(capacity, OpsOf(d));
    OpsRun(W.BLANK_PAGE, W.Endless, d);
    Prints(W.BLANK_PAGE, d);
    assert W.BLANK_PAGE.text + ("" + Render(d)) == Render(d);
    ConcreteIsValue(d);
    PrintedParses(es);
    if DistinctNames(d) { ConcreteIsDistinct(d); }
    forall key | DistinctNames(d) && EntriesHeight(es) <= MAX_CHECKED_JSON_DEPTH
      ensures CheckedFind(Render(d), key) == Invalid <==>
        var member := MemberOf(ConcreteItems(true, es), key);
        member.Some? && KindOf(member.value) != ObjectKind
    {
      AcceptedWhen(Render(d), key);
    }
  }

  function EntryOf(es: Entries, name: string): Option<Data> {
    match es
    case NoEntries => None
    case Entry(n, value, rest) => if n == name then Some(value) else EntryOf(rest, name)
  }

  lemma {:induction false} EntryIsMember(es: Entries, name: string)
    requires IsPlain(name) && forall n | n in EntryNames(es) :: IsPlain(n)
    ensures MemberOf(ConcreteItems(true, es), W.Escape(name)) == match EntryOf(es, name)
      case None => None
      case Some(value) => Some(Concrete(value))
  {
    hide W.Escape, IsPlain, Concrete;
    if es.Entry? {
      assert es.name in EntryNames(es);
      if W.Escape(es.name) == W.Escape(name) {
        EscapeInjective(es.name, name);
      }
      EntryIsMember(es.rest, name);
    }
  }

  /** Every member of a printed object reads back with its type: texts as the original text, or not at all
      when they held an odd control byte; integers and booleans equal; objects as their own printed form;
      and a name that was not printed is not found. */
  lemma {:induction false} ReadsBack(es: Entries, name: string, overflow: Overflow := map[])
    requires Printable(DBox(true, es)) && PrintHeight(DBox(true, es)) <= W.MAX_DEPTH && IsPlain(name)
    ensures
      var s := Render(DBox(true, es));
      var key := W.Escape(name);
      match EntryOf(es, name)
      case None => FindSpec(s, key) == None
      case Some(DText(t)) =>
        RawStringOf(s, key) == Some(W.Escape(t)) && Unescape(W.Escape(t)) == if IsPlain(t) then Some(t) else None
      case Some(DInt(i)) =>
        && StatedInteger(s, key) == Some(i)
        && IntegerOf(s, key, overflow)
        == if -MAX_INT64 <= i <= MAX_INT64 then Some(i) else Overflown(W.IntegerText(i), overflow)
      case Some(DFlag(b)) => BoolOf(s, key) == Some(b)
      case Some(DNull) => FindSpec(s, key).Some? && FindSpec(s, key).value.kind == NullKind
      case Some(DRaw(v)) =>
        TextOf(s, key, KindOf(v)) == Some(Shown(v))
      case Some(DBox(isObject, inner)) =>
        TextOf(s, key, if isObject then ObjectKind else ArrayKind) == Some(Render(DBox(isObject, inner)))
  {
    hide FindSpec, TextOf, W.Escape, IsPlain, NumberText, Unescape, IntegerIn, ReadIn, EntryOf, Render, Printable,
         PrintHeight;
    MemberFound(es, name);
    match EntryOf(es, name) {
      case Some(DText(t)) => UnescapeEscape(t);
      case Some(DInt(i)) =>
        NumberForText(i);
        IntegerReadsBack(i, overflow);
      case Some(DBox(isObject, inner)) => BoxIsShown(isObject, inner);
      case _ =>
    }
  }

  lemma BoxIsShown(isObject: bool, inner: Entries)
    ensures Shown(Concrete(DBox(isObject, inner))) == Render(DBox(isObject, inner))
  {
    hide ValueText;
  }

  /** Looking up a printed member finds its value, as a span of its kind. */
  lemma {:induction false} MemberFound(es: Entries, name: string)
    requires Printable(DBox(true, es)) && PrintHeight(DBox(true, es)) <= W.MAX_DEPTH && IsPlain(name)
    ensures
      var s := Render(DBox(true, es));
      var key := W.Escape(name);
      match EntryOf(es, name)
      case None => FindSpec(s, key) == None
      case Some(value) =>
        && FindSpec(s, key).Some? && FindSpec(s, key).value.kind == KindOf(Concrete(value))
        && TextOf(s, key, KindOf(Concrete(value))) == Some(Shown(Concrete(value)))
  {
    hide FindSpec, ParseDocument, ItemsText, MemberOf, ConcreteItems, W.Escape, IsPlain, Shown, Concrete, KindOf,
         EntryOf;
    PrintedParses(es);
    var s := Render(DBox(true, es));
    DocumentFound(s, W.Escape(name));
    EntryIsMember(es, name);
  }
}
