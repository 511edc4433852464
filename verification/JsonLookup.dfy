/** What the two scanners look for: a member of an object, by raw name, with its extent and kind. */
module JsonLookup {
  import opened Bytes
  import opened JsonGrammar
  import opened JsonParse

  datatype Kind = StringKind | NumberKind | BooleanKind | NullKind | ObjectKind | ArrayKind

  /** The extent `[from, to)` of a value in the text. For a string it is what stands between the quotes. */
  datatype Found = Found(from: nat, to: nat, kind: Kind)

  function KindOf(v: Value): Kind {
    match v
    case Str(_) => StringKind
    case Num(_) => NumberKind
    case Word(w) => if w == "null" then NullKind else BooleanKind
    case Box(isObject, _) => if isObject then ObjectKind else ArrayKind
  }

  /** What a reader sees of a value: the body of a string, the whole text of anything else. */
  function Shown(v: Value): string {
    if v.Str? then v.raw else ValueText(v)
  }

  function Extent(v: Value, i: nat, end: nat): Found
    requires v.Str? ==> end > 0
  {
    if v.Str? then Found(i + 1, end - 1, KindOf(v)) else Found(i, end, KindOf(v))
  }

  /** The value of the first item named `key`. */
  function MemberOf(items: Items, key: string): Option<Value> {
    match items
    case Blank(_) => None
    case Last(item) => if NameOf(item) == [key] then Some(item.value) else None
    case More(item, rest) => if NameOf(item) == [key] then Some(item.value) else MemberOf(rest, key)
  }

  /** Where the first item named `key` has its value, reading items from position `c`. */
  function LookupFrom(s: string, c: nat, first: bool, key: string): (r: Option<Found>)
    requires c <= |s|
    decreases |s| - c
  {
    var k := EatWs(s, c);
    var item := ParseItem(s, c, true);
    if (first && k < |s| && s[k] == '}') || item.Fail? then None
    else if NameOf(item.tree) == [key] then
      Some(Extent(item.tree.value, ValueStartsAt(s, c), ValueEndsAt(s, c)))
    else if item.end < |s| && s[item.end] == ',' then LookupFrom(s, item.end + 1, false, key)
    else None
  }

  /** Where the value of the member read at `c` begins. */
  function ValueStartsAt(s: string, c: nat): (r: nat)
    requires c <= |s| && ParseItem(s, c, true).Done?
    ensures r <= |s| && ParseValue(s, r).Done?
  {
    ParseName(s, EatWs(s, c), true).end
  }

  function ValueEndsAt(s: string, c: nat): (r: nat)
    requires c <= |s| && ParseItem(s, c, true).Done?
    ensures ValueStartsAt(s, c) < r <= |s|
  {
    ParseValue(s, ValueStartsAt(s, c)).end
  }

  lemma ShownAt(s: string, i: nat)
    requires i <= |s| && ParseValue(s, i).Done?
    ensures var r := ParseValue(s, i); var f := Extent(r.tree, i, r.end);
      f.from <= f.to <= |s| && s[f.from..f.to] == Shown(r.tree)
  {
    hide At, IsValue, ParseItems, ParseNumber, BodyEnd, ItemsText, NumberText;
    ParseValueSound(s, i);
    AtIs(s, i, ValueText(ParseValue(s, i).tree));
  }

  lemma ItemSeams(s: string, c: nat)
    requires c <= |s| && ParseItem(s, c, true).Done?
    ensures var item := ParseItem(s, c, true);
      && item.tree.value == ParseValue(s, ValueStartsAt(s, c)).tree
      && item.end == EatWs(s, ValueEndsAt(s, c))
  {
    hide ParseValue, ParseName, AllWs;
  }

  /** The extent of the value of a member covers what is shown of it. */
  lemma FirstShown(s: string, c: nat)
    requires c <= |s| && ParseItem(s, c, true).Done?
    ensures
      var v := ParseItem(s, c, true).tree.value;
      var f := Extent(v, ValueStartsAt(s, c), ValueEndsAt(s, c));
      && f.kind == KindOf(v) && f.from <= f.to <= |s| && s[f.from..f.to] == Shown(v)
  {
    hide Shown, KindOf, ParseItem, ParseValue, EatWs, AllWs, ParseName;
    ItemSeams(s, c);
    ShownAt(s, ValueStartsAt(s, c));
  }

  /** The positions found in the text are those of the member in the tree. */
  lemma {:induction false} LookupFinds(s: string, c: nat, first: bool, key: string)
    requires c <= |s| && ParseItems(s, c, true, first).Done?
    ensures
      var m := MemberOf(ParseItems(s, c, true, first).tree, key);
      var f := LookupFrom(s, c, first, key);
      && (f.Some? <==> m.Some?)
      && (m.Some? ==>
            && f.value.kind == KindOf(m.value)
            && f.value.from <= f.value.to <= |s|
            && s[f.value.from..f.value.to] == Shown(m.value))
    decreases |s| - c
  {
    hide Shown, KindOf, ParseItem, ParseValue, EatWs, AllWs, ParseName, Extent, ValueStartsAt, ValueEndsAt, NameOf;
    var item := ParseItem(s, c, true);
    if item.Done? {
      FirstShown(s, c);
      if item.end < |s| && s[item.end] == ',' && NameOf(item.tree) != [key]
        && ParseItems(s, c, true, first).tree.More?
      {
        LookupFinds(s, item.end + 1, false, key);
      }
    }
  }

  // ------------------------------------------------------------ documents

  function ParseDocument(s: string): Parsed<Document> {
    var i := EatWs(s, 0);
    if i == |s| || s[i] != '{' then Fail
    else
      var items := ParseItems(s, i + 1, true, true);
      if items.Fail? || EatWs(s, items.end) != |s| then Fail
      else Done(Document(s[..i], items.tree, s[items.end..]), |s|)
  }

  lemma ParseDocumentSound(s: string)
    requires ParseDocument(s).Done?
    ensures var d := ParseDocument(s).tree; IsDocument(d) && DocumentText(d) == s
  {
    hide At, ParseItems, IsItems, ItemsText, AllWs;
    var i := EatWs(s, 0);
    var d := ParseDocument(s).tree;
    ParseItemsSound(s, i + 1, true, true);
    var e := ParseItems(s, i + 1, true, true).end;
    EatWsPasses(s, 0);
    EatWsPasses(s, e);
    AtIs(s, i + 1, ItemsText(true, d.items));
    assert s[..i] == s[0..i] && s[e..] == s[e..|s|];
    assert s == s[..i] + (([s[i]] + s[i + 1..e]) + s[e..]);
  }

  /** Where the parts of a document stand. */
  lemma DocumentParts(d: Document)
    ensures
      var s, body := DocumentText(d), ItemsText(true, d.items);
      && |s| == |d.before| + 1 + |body| + |d.after|
      && At(s, 0, d.before) && s[..|d.before|] == d.before
      && s[|d.before|] == '{'
      && At(s, |d.before| + 1, body)
      && At(s, |d.before| + 1 + |body|, d.after) && s[|d.before| + 1 + |body|..] == d.after
  {
    hide At, ItemsText;
    var s, body, i := DocumentText(d), ItemsText(true, d.items), |d.before|;
    AtSlice(s, 0, |s|);
    assert s[0..|s|] == s;
    assert ValueText(Box(true, d.items)) == "{" + body;
    hide ValueText;
    AtSplit(s, 0, d.before, ("{" + body) + d.after);
    AtSplit(s, i, "{" + body, d.after);
    AtSplit(s, i, "{", body);
    AtByte(s, i, "{", 0);
    AtIs(s, 0, d.before);
    AtIs(s, i + 1 + |body|, d.after);
  }

  lemma ParseDocumentComplete(d: Document)
    requires IsDocument(d)
    ensures ParseDocument(DocumentText(d)) == Done(d, |DocumentText(d)|)
  {
    hide At, ParseItems, IsItems, ItemsText, AllWs, EatWs, DocumentText;
    DocumentParts(d);
    var s, i, body := DocumentText(d), |d.before|, ItemsText(true, d.items);
    EatWsOver(s, 0, d.before);
    ParseItemsComplete(s, i + 1, true, d.items, true);
    EatWsOver(s, i + 1 + |body|, d.after);
  }
}
