/** A functional reader of the grammar, and the proof that it decides it.

    `ParseValue` reads the longest value at a position and returns its tree. It checks the grammar only;
    depth and repeated names are properties of the tree it returns. The scanner methods are proved
    against it, and it is proved against the trees: what it returns is well formed and stands in the
    text (`ParseValueSound`), and a well-formed tree that stands in the text is what it returns
    (`ParseValueComplete`), so that the grammar is also unambiguous. */
module JsonParse {
  import opened Bytes
  import opened JsonGrammar

  datatype Parsed<+T> = Fail | Done(tree: T, end: nat)

  // -------------------------------------------------------------- strings

  /** The closing quote of a string whose body starts at `k`. */
  function BodyEnd(s: string, k: nat, unicode: bool): (r: Option<nat>)
    requires k <= |s|
    ensures r.Some? ==> k <= r.value < |s| && s[r.value] == '"'
    decreases |s| - k
  {
    if k == |s| || IsControl(s[k]) then None
    else if s[k] == '"' then Some(k)
    else if s[k] != '\\' then BodyEnd(s, k + 1, unicode)
    else if k + 1 == |s| then None
    else if IsShortEscape(s[k + 1]) then BodyEnd(s, k + 2, unicode)
    else if s[k + 1] == 'u' && unicode && k + 5 < |s|
            && IsHex(s[k + 2]) && IsHex(s[k + 3]) && IsHex(s[k + 4]) && IsHex(s[k + 5]) then
      BodyEnd(s, k + 6, unicode)
    else None
  }

  lemma {:induction false} BodyEndSound(s: string, k: nat, unicode: bool)
    requires k <= |s| && BodyEnd(s, k, unicode).Some?
    ensures IsBody(s[k..BodyEnd(s, k, unicode).value], unicode)
    decreases |s| - k
  {
    var e := BodyEnd(s, k, unicode).value;
    var raw := s[k..e];
    if s[k] == '"' {
    } else if s[k] != '\\' {
      BodyEndSound(s, k + 1, unicode);
      assert raw[1..] == s[k + 1..e];
    } else if IsShortEscape(s[k + 1]) {
      BodyEndSound(s, k + 2, unicode);
      assert raw[2..] == s[k + 2..e];
    } else {
      BodyEndSound(s, k + 6, unicode);
      assert raw[6..] == s[k + 6..e];
    }
  }

  lemma {:induction false} BodyEndComplete(s: string, k: nat, raw: string, unicode: bool)
    requires At(s, k, raw + "\"") && IsBody(raw, unicode)
    ensures BodyEnd(s, k, unicode) == Some(k + |raw|)
    decreases |raw|
  {
    AtByte(s, k, raw + "\"", 0);
    if raw != "" {
      var n := if raw[0] != '\\' then 1 else if IsShortEscape(raw[1]) then 2 else 6;
      forall j | 0 <= j < n ensures s[k + j] == raw[j] {
        AtByte(s, k, raw + "\"", j);
      }
      assert raw + "\"" == raw[..n] + (raw[n..] + "\"");
      AtSplit(s, k, raw[..n], raw[n..] + "\"");
      BodyEndComplete(s, k + n, raw[n..], unicode);
    }
  }

  // -------------------------------------------------------------- numbers

  function FractionEnd(s: string, i: nat): (r: Option<nat>)
    requires i <= |s|
    ensures r.Some? ==> i <= r.value <= |s|
  {
    if i < |s| && s[i] == '.' then
      var e := DigitsEnd(s, i + 1);
      if e == i + 1 then None else Some(e)
    else Some(i)
  }

  function ExponentEnd(s: string, i: nat): (r: Option<nat>)
    requires i <= |s|
    ensures r.Some? ==> i <= r.value <= |s|
  {
    if i < |s| && (s[i] == 'e' || s[i] == 'E') then
      var d := if i + 1 < |s| && IsSign(s[i + 1]) then i + 2 else i + 1;
      var e := DigitsEnd(s, d);
      if e == d then None else Some(e)
    else Some(i)
  }

  function ParseNumber(s: string, i: nat): (r: Parsed<Number>)
    requires i <= |s|
    ensures r.Done? ==> i < r.end <= |s|
  {
    var w := if i < |s| && s[i] == '-' then i + 1 else i;
    var f := DigitsEnd(s, w);
    if f == w || (s[w] == '0' && f != w + 1) then Fail
    else
      var x := FractionEnd(s, f);
      if x.None? then Fail
      else
        var e := ExponentEnd(s, x.value);
        if e.None? then Fail
        else Done(Number(s[i..w], s[w..f], s[f..x.value], s[x.value..e.value]), e.value)
  }

  /** The bytes that the lenient scanner takes as part of a number. */
  predicate IsNumberByte(c: char) {
    IsDigit(c) || c == '.' || c == 'e' || c == 'E' || c == '+' || c == '-'
  }

  predicate NumberStops(s: string, i: nat) {
    i >= |s| || !IsNumberByte(s[i])
  }

  lemma FractionEndSound(s: string, i: nat)
    requires i <= |s| && FractionEnd(s, i).Some?
    ensures IsFraction(s[i..FractionEnd(s, i).value])
  {
    hide AllDigits;
    var e := FractionEnd(s, i).value;
    if e != i {
      DigitsEndPasses(s, i + 1);
      assert s[i..e][1..] == s[i + 1..e];
    }
  }

  lemma ExponentEndSound(s: string, i: nat)
    requires i <= |s| && ExponentEnd(s, i).Some?
    ensures IsExponent(s[i..ExponentEnd(s, i).value])
  {
    hide AllDigits;
    var e := ExponentEnd(s, i).value;
    if e != i {
      var d := if IsSign(s[i + 1]) then 2 else 1;
      DigitsEndPasses(s, i + d);
      assert s[i..e][d..] == s[i + d..e];
    }
  }

  lemma ParseNumberSound(s: string, i: nat)
    requires i <= |s| && ParseNumber(s, i).Done?
    ensures var r := ParseNumber(s, i);
      IsNumber(r.tree) && At(s, i, NumberText(r.tree)) && r.end == i + |NumberText(r.tree)|
  {
    hide At, AllDigits, FractionEnd, ExponentEnd, IsFraction, IsExponent, DigitsEnd;
    var r := ParseNumber(s, i);
    var n := r.tree;
    var w := i + |n.sign|;
    var f := w + |n.whole|;
    var x := f + |n.frac|;
    DigitsEndPasses(s, w);
    FractionEndSound(s, f);
    ExponentEndSound(s, x);
    FourSlices(s, i, w, f, x, r.end);
  }

  lemma FourSlices(s: string, i: nat, w: nat, f: nat, x: nat, end: nat)
    requires i <= w <= f <= x <= end <= |s|
    ensures At(s, i, s[i..w] + s[w..f] + s[f..x] + s[x..end])
  {
    hide At;
    TwoSlices(s, i, w, f);
    TwoSlices(s, i, f, x);
    TwoSlices(s, i, x, end);
    AtSlice(s, i, end);
  }

  lemma TwoSlices(s: string, a: nat, b: nat, c: nat)
    requires a <= b <= c <= |s|
    ensures s[a..b] + s[b..c] == s[a..c]
  {
  }

  lemma FractionEndOver(s: string, i: nat, frac: string)
    requires At(s, i, frac) && IsFraction(frac)
    requires var e := i + |frac|; e == |s| || (!IsDigit(s[e]) && s[e] != '.')
    ensures FractionEnd(s, i) == Some(i + |frac|)
  {
    if frac != "" {
      assert frac == frac[..1] + frac[1..];
      AtSplit(s, i, frac[..1], frac[1..]);
      AtByte(s, i, frac, 0);
      DigitsEndOver(s, i + 1, frac[1..]);
    }
  }

  lemma ExponentEndOver(s: string, i: nat, exp: string)
    requires At(s, i, exp) && IsExponent(exp)
    requires NumberStops(s, i + |exp|)
    ensures ExponentEnd(s, i) == Some(i + |exp|)
  {
    hide At, AllDigits, DigitsEnd;
    if exp != "" {
      AtByte(s, i, exp, 0);
      AtByte(s, i, exp, 1);
      ExponentDigitsOver(s, i, exp, if IsSign(exp[1]) then 2 else 1);
    }
  }

  lemma ExponentDigitsOver(s: string, i: nat, exp: string, d: nat)
    requires At(s, i, exp) && NumberStops(s, i + |exp|) && d <= |exp| && IsDigits(exp[d..])
    ensures DigitsEnd(s, i + d) == i + |exp|
  {
    hide At, AllDigits, DigitsEnd;
    assert exp == exp[..d] + exp[d..];
    AtSplit(s, i, exp[..d], exp[d..]);
    DigitsEndOver(s, i + d, exp[d..]);
  }

  lemma NumberParts(s: string, i: nat, n: Number)
    requires At(s, i, NumberText(n))
    ensures var w := i + |n.sign|; var f := w + |n.whole|; var x := f + |n.frac|;
      && At(s, i, n.sign) && At(s, w, n.whole) && At(s, f, n.frac) && At(s, x, n.exp)
      && i + |NumberText(n)| == x + |n.exp| <= |s|
      && s[i..w] == n.sign && s[w..f] == n.whole && s[f..x] == n.frac && s[x..x + |n.exp|] == n.exp
  {
    hide At;
    AtSplit(s, i, n.sign + n.whole + n.frac, n.exp);
    AtSplit(s, i, n.sign + n.whole, n.frac);
    AtSplit(s, i, n.sign, n.whole);
    AtIs(s, i, n.sign);
    AtIs(s, i + |n.sign|, n.whole);
    AtIs(s, i + |n.sign + n.whole|, n.frac);
    AtIs(s, i + |n.sign + n.whole + n.frac|, n.exp);
  }

  lemma ParseNumberComplete(s: string, i: nat, n: Number)
    requires IsNumber(n) && At(s, i, NumberText(n)) && NumberStops(s, i + |NumberText(n)|)
    ensures ParseNumber(s, i) == Done(n, i + |NumberText(n)|)
  {
    hide At, AllDigits, FractionEnd, ExponentEnd, DigitsEnd, IsFraction, IsExponent, NumberText, NumberStops;
    NumberParts(s, i, n);
    NumberEnds(s, i + |n.sign|, n.whole, n.frac, n.exp);
    WholeStart(s, i + |n.sign|, n.whole);
    if n.sign != "" {
      AtByte(s, i, n.sign, 0);
    }
  }

  lemma NumberEnds(s: string, w: nat, whole: string, frac: string, exp: string)
    requires IsWhole(whole) && IsFraction(frac) && IsExponent(exp)
    requires At(s, w, whole) && At(s, w + |whole|, frac) && At(s, w + |whole| + |frac|, exp)
    requires NumberStops(s, w + |whole| + |frac| + |exp|)
    ensures var f := w + |whole|; var x := f + |frac|;
      && x + |exp| <= |s| && DigitsEnd(s, w) == f && FractionEnd(s, f) == Some(x)
      && ExponentEnd(s, x) == Some(x + |exp|)
  {
    hide At, AllDigits, FractionEnd, ExponentEnd, DigitsEnd, IsFraction, IsExponent, NumberStops, IsDigit;
    var f := w + |whole|;
    var x := f + |frac|;
    ExponentEndOver(s, x, exp);
    FractionFollows(s, x, exp);
    FractionEndOver(s, f, frac);
    WholeFollows(s, f, frac);
    DigitsEndOver(s, w, whole);
  }

  lemma WholeStart(s: string, w: nat, whole: string)
    requires IsWhole(whole) && At(s, w, whole)
    ensures w < |s| && s[w] == whole[0] && IsDigit(s[w])
  {
    AtByte(s, w, whole, 0);
  }

  /** What stands after the fraction is not taken for a part of it. */
  lemma FractionFollows(s: string, x: nat, exp: string)
    requires At(s, x, exp) && IsExponent(exp) && NumberStops(s, x + |exp|)
    ensures x == |s| || (!IsDigit(s[x]) && s[x] != '.')
  {
    if exp != "" {
      AtByte(s, x, exp, 0);
    }
  }

  lemma WholeFollows(s: string, f: nat, frac: string)
    requires At(s, f, frac) && IsFraction(frac)
    requires var x := f + |frac|; x == |s| || (!IsDigit(s[x]) && s[x] != '.')
    ensures f == |s| || !IsDigit(s[f])
  {
    if frac != "" {
      AtByte(s, f, frac, 0);
    }
  }

  // ------------------------------------------------------- bare words

  /** The bare word that a value may begin with, chosen by its first letter. */
  function WordFor(c: char): string {
    if c == 't' then "true" else if c == 'f' then "false" else "null"
  }

  // ------------------------------------------------- values and containers

  function ParseValue(s: string, i: nat): (r: Parsed<Value>)
    requires i <= |s|
    ensures r.Done? ==> i < r.end <= |s|
    decreases |s| - i, 1
  {
    if i == |s| then Fail
    else if s[i] == '"' then
      var e := BodyEnd(s, i + 1, true);
      if e.None? then Fail else Done(Str(s[i + 1..e.value]), e.value + 1)
    else if s[i] == '{' || s[i] == '[' then
      var r := ParseItems(s, i + 1, s[i] == '{', true);
      if r.Fail? then Fail else Done(Box(s[i] == '{', r.tree), r.end)
    else if s[i] == 't' || s[i] == 'f' || s[i] == 'n' then
      if At(s, i, WordFor(s[i])) then Done(Word(WordFor(s[i])), i + |WordFor(s[i])|) else Fail
    else if s[i] == '-' || IsDigit(s[i]) then
      var r := ParseNumber(s, i);
      if r.Fail? then Fail else Done(Num(r.tree), r.end)
    else Fail
  }

  /** The name of an item, its colon and the white space after it; nothing in an array. */
  function ParseName(s: string, k: nat, isObject: bool): (r: Parsed<Name>)
    requires k <= |s|
    ensures r.Done? ==> k <= r.end <= |s|
  {
    if !isObject then Done(NoName, k)
    else if k == |s| || s[k] != '"' then Fail
    else
      var e := BodyEnd(s, k + 1, false);
      if e.None? then Fail
      else
        var colon := EatWs(s, e.value + 1);
        if colon == |s| || s[colon] != ':' then Fail
        else
          var v := EatWs(s, colon + 1);
          Done(Named(s[k + 1..e.value], s[e.value + 1..colon], s[colon + 1..v]), v)
  }

  /** One item and the white space around it, up to the ',' or bracket that follows. */
  function ParseItem(s: string, c: nat, isObject: bool): (r: Parsed<Item>)
    requires c <= |s|
    ensures r.Done? ==> c < r.end <= |s|
    decreases |s| - c, 2
  {
    var k := EatWs(s, c);
    var n := ParseName(s, k, isObject);
    if n.Fail? then Fail
    else
      var v := ParseValue(s, n.end);
      if v.Fail? then Fail
      else
        var e := EatWs(s, v.end);
        Done(Item(s[c..k], n.tree, v.tree, s[v.end..e]), e)
  }

  /** The items of a container from just past its bracket, or from just past a ',' when not `first`. */
  function ParseItems(s: string, c: nat, isObject: bool, first: bool): (r: Parsed<Items>)
    requires c <= |s|
    ensures r.Done? ==> c < r.end <= |s|
    decreases |s| - c, 3
  {
    var k := EatWs(s, c);
    if first && k < |s| && s[k] == Close(isObject) then Done(Blank(s[c..k]), k + 1)
    else
      var item := ParseItem(s, c, isObject);
      if item.Fail? || item.end == |s| then Fail
      else if s[item.end] == Close(isObject) then Done(Last(item.tree), item.end + 1)
      else if s[item.end] != ',' then Fail
      else
        var rest := ParseItems(s, item.end + 1, isObject, false);
        if rest.Fail? then Fail else Done(More(item.tree, rest.tree), rest.end)
  }

  // ------------------------------------------------------------ soundness

  lemma {:induction false} ParseValueSound(s: string, i: nat)
    requires i <= |s| && ParseValue(s, i).Done?
    ensures var r := ParseValue(s, i);
      IsValue(r.tree) && At(s, i, ValueText(r.tree)) && r.end == i + |ValueText(r.tree)|
    decreases |s| - i, 1
  {
    hide At, ParseItems, IsItems, ItemsText, ParseNumber, IsNumber, NumberText, BodyEnd, IsBody;
    var r := ParseValue(s, i);
    match r.tree {
      case Str(raw) =>
        BodyEndSound(s, i + 1, true);
        AtSlice(s, i + 1, r.end - 1);
        AtOne(s, r.end - 1, '"');
        AtJoin(s, i + 1, raw, "\"");
        AtOne(s, i, '"');
        AtJoin(s, i, "\"", raw + "\"");
      case Num(_) =>
        ParseNumberSound(s, i);
      case Word(_) =>
      case Box(isObject, items) =>
        ParseItemsSound(s, i + 1, isObject, true);
        AtOne(s, i, Open(isObject));
        AtJoin(s, i, [Open(isObject)], ItemsText(isObject, items));
    }
  }

  lemma NameSlices(s: string, k: nat, e: nat, colon: nat, end: nat)
    requires k < e < colon < end <= |s| + 1 && end <= |s| && s[k] == '"' && s[e] == '"' && s[colon] == ':'
    ensures At(s, k, NameText(Named(s[k + 1..e], s[e + 1..colon], s[colon + 1..end])))
    ensures |NameText(Named(s[k + 1..e], s[e + 1..colon], s[colon + 1..end]))| == end - k
  {
    var tail := s[e + 1..colon] + (":" + s[colon + 1..end]);
    assert tail == s[e + 1..end];
    assert "\"" + (s[k + 1..e] + ("\"" + s[e + 1..end])) == s[k..end];
  }

  /** The seams of a name that was read. */
  lemma NameSeams(s: string, k: nat)
    requires k <= |s| && ParseName(s, k, true).Done?
    ensures k < |s| && s[k] == '"' && BodyEnd(s, k + 1, false).Some?
    ensures
      var e := BodyEnd(s, k + 1, false).value;
      var colon := EatWs(s, e + 1);
      && k < e < colon < |s| && s[colon] == ':'
      && var end := EatWs(s, colon + 1);
         ParseName(s, k, true) == Done(Named(s[k + 1..e], s[e + 1..colon], s[colon + 1..end]), end)
  {
    hide BodyEnd, EatWs;
  }

  lemma NamedSound(s: string, k: nat)
    requires k <= |s| && ParseName(s, k, true).Done?
    ensures var r := ParseName(s, k, true);
      IsName(true, r.tree) && At(s, k, NameText(r.tree)) && r.end == k + |NameText(r.tree)|
  {
    hide At, AllWs, BodyEnd, IsBody, EatWs, NameText, ParseName;
    NameSeams(s, k);
    var e := BodyEnd(s, k + 1, false).value;
    var colon := EatWs(s, e + 1);
    BodyEndSound(s, k + 1, false);
    EatWsPasses(s, e + 1);
    EatWsPasses(s, colon + 1);
    NameSlices(s, k, e, colon, EatWs(s, colon + 1));
  }

  lemma ParseNameSound(s: string, k: nat, isObject: bool)
    requires k <= |s| && ParseName(s, k, isObject).Done?
    ensures var r := ParseName(s, k, isObject);
      IsName(isObject, r.tree) && At(s, k, NameText(r.tree)) && r.end == k + |NameText(r.tree)|
  {
    if isObject {
      NamedSound(s, k);
    } else {
      AtSlice(s, k, k);
    }
    hide At, IsName;
  }

  lemma {:induction false} ParseItemSound(s: string, c: nat, isObject: bool)
    requires c <= |s| && ParseItem(s, c, isObject).Done?
    ensures var r := ParseItem(s, c, isObject);
      IsItem(isObject, r.tree) && At(s, c, ItemText(r.tree)) && r.end == c + |ItemText(r.tree)|
    decreases |s| - c, 2
  {
    hide At, AllWs, ParseName, NameText, IsName, ParseValue, ValueText, IsValue, EatWs, ItemText;
    var item := ParseItem(s, c, isObject).tree;
    var k := c + |item.lead|;
    ParseNameSound(s, k, isObject);
    var v := k + |NameText(item.name)|;
    ParseValueSound(s, v);
    EatWsPasses(s, c);
    EatWsPasses(s, v + |ValueText(item.value)|);
    AtSlice(s, c, k);
    AtSlice(s, v + |ValueText(item.value)|, ParseItem(s, c, isObject).end);
    ItemWhole(s, c, item);
  }

  lemma {:induction false} ItemWhole(s: string, c: nat, item: Item)
    requires var k := c + |item.lead|; var v := k + |NameText(item.name)|;
      && At(s, c, item.lead) && At(s, k, NameText(item.name)) && At(s, v, ValueText(item.value))
      && At(s, v + |ValueText(item.value)|, item.after)
    ensures At(s, c, ItemText(item))
    ensures |ItemText(item)| == |item.lead| + |NameText(item.name)| + |ValueText(item.value)| + |item.after|
  {
    hide At, NameText, ValueText;
    var k := c + |item.lead|;
    AtJoin(s, k + |NameText(item.name)|, ValueText(item.value), item.after);
    AtJoin(s, k, NameText(item.name), ValueText(item.value) + item.after);
    AtJoin(s, c, item.lead, NameText(item.name) + (ValueText(item.value) + item.after));
  }

  lemma ItemsWhole(s: string, c: nat, isObject: bool, items: Items)
    requires var close := Close(isObject);
      match items
      case Blank(ws) => At(s, c, ws) && c + |ws| < |s| && s[c + |ws|] == close
      case Last(item) => At(s, c, ItemText(item)) && c + |ItemText(item)| < |s| && s[c + |ItemText(item)|] == close
      case More(item, rest) =>
        var comma := c + |ItemText(item)|;
        && At(s, c, ItemText(item)) && comma < |s| && s[comma] == ','
        && At(s, comma + 1, ItemsText(isObject, rest))
    ensures At(s, c, ItemsText(isObject, items))
    ensures |ItemsText(isObject, items)| == match items
      case Blank(ws) => |ws| + 1
      case Last(item) => |ItemText(item)| + 1
      case More(item, rest) => |ItemText(item)| + 1 + |ItemsText(isObject, rest)|
  {
    hide At, ItemText, Close;
    match items {
      case Blank(ws) =>
        AtOne(s, c + |ws|, Close(isObject));
        AtJoin(s, c, ws, [Close(isObject)]);
      case Last(item) =>
        AtOne(s, c + |ItemText(item)|, Close(isObject));
        AtJoin(s, c, ItemText(item), [Close(isObject)]);
      case More(item, rest) =>
        var comma := c + |ItemText(item)|;
        AtOne(s, comma, ',');
        AtJoin(s, comma, ",", ItemsText(isObject, rest));
        AtJoin(s, c, ItemText(item), "," + ItemsText(isObject, rest));
    }
  }

  lemma {:induction false} ParseItemsSound(s: string, c: nat, isObject: bool, first: bool)
    requires c <= |s| && ParseItems(s, c, isObject, first).Done?
    ensures var r := ParseItems(s, c, isObject, first);
      && IsItems(isObject, r.tree, first)
      && At(s, c, ItemsText(isObject, r.tree))
      && r.end == c + |ItemsText(isObject, r.tree)|
    decreases |s| - c, 3
  {
    hide At, AllWs, IsWs, ParseItem, ItemText, ItemsText, IsItem, EatWs, Close;
    var items := ParseItems(s, c, isObject, first).tree;
    match items {
      case Blank(ws) =>
        EatWsPasses(s, c);
        AtSlice(s, c, c + |ws|);
        ItemsWhole(s, c, isObject, items);
      case Last(item) =>
        ParseItemSound(s, c, isObject);
        ItemsWhole(s, c, isObject, items);
      case More(item, rest) =>
        ParseItemSound(s, c, isObject);
        ParseItemsSound(s, c + |ItemText(item)| + 1, isObject, false);
        ItemsWhole(s, c, isObject, items);
    }
  }

  // --------------------------------------------------------- completeness

  lemma {:induction false} ParseValueComplete(s: string, i: nat, v: Value)
    requires IsValue(v) && At(s, i, ValueText(v))
    requires v.Num? ==> NumberStops(s, i + |ValueText(v)|)
    ensures ParseValue(s, i) == Done(v, i + |ValueText(v)|)
    decreases v, 1
  {
    hide At, ParseItems, IsItems, ItemsText, ParseNumber, NumberText, BodyEnd, IsBody;
    match v {
      case Str(raw) =>
        AtSplit(s, i, "\"", raw + "\"");
        BodyEndComplete(s, i + 1, raw, true);
        AtSplit(s, i + 1, raw, "\"");
      case Num(n) =>
        ParseNumberComplete(s, i, n);
        ValueStart(v);
        AtByte(s, i, NumberText(n), 0);
      case Word(w) =>
        AtByte(s, i, w, 0);
      case Box(isObject, items) =>
        AtSplit(s, i, [Open(isObject)], ItemsText(isObject, items));
        ParseItemsComplete(s, i + 1, isObject, items, true);
    }
  }

  /** The quoted name at the front of a text. */
  lemma QuotedParts(s: string, k: nat, key: string, tail: string)
    requires At(s, k, "\"" + (key + ("\"" + tail)))
    ensures
      var e := k + 1 + |key|;
      && e + 1 + |tail| <= |s| && s[k] == '"' && s[e] == '"' && s[k + 1..e] == key
      && At(s, k + 1, key + "\"") && At(s, e + 1, tail)
  {
    hide At;
    AtSplit(s, k, "\"", key + ("\"" + tail));
    AtByte(s, k, "\"", 0);
    assert key + ("\"" + tail) == (key + "\"") + tail;
    AtSplit(s, k + 1, key + "\"", tail);
    AtSplit(s, k + 1, key, "\"");
    AtByte(s, k + 1 + |key|, "\"", 0);
    AtIs(s, k + 1, key);
  }

  /** The colon behind it and the white space around that. */
  lemma ColonParts(s: string, i: nat, w1: string, w2: string)
    requires At(s, i, w1 + (":" + w2))
    ensures
      var colon := i + |w1|;
      && colon + 1 + |w2| <= |s| && s[colon] == ':'
      && At(s, i, w1) && s[i..colon] == w1 && At(s, colon + 1, w2) && s[colon + 1..colon + 1 + |w2|] == w2
  {
    hide At;
    var colon := i + |w1|;
    AtSplit(s, i, w1, ":" + w2);
    AtSplit(s, colon, ":", w2);
    AtByte(s, colon, ":", 0);
    AtIs(s, i, w1);
    AtIs(s, colon + 1, w2);
  }

  /** Reading a name whose seams are known. */
  lemma NameReads(s: string, k: nat, e: nat, colon: nat, end: nat)
    requires k < e < colon < end <= |s| + 1 && colon < |s| && end <= |s| && s[k] == '"' && s[colon] == ':'
    requires BodyEnd(s, k + 1, false) == Some(e) && EatWs(s, e + 1) == colon && EatWs(s, colon + 1) == end
    ensures ParseName(s, k, true) == Done(Named(s[k + 1..e], s[e + 1..colon], s[colon + 1..end]), end)
  {
    hide BodyEnd, EatWs;
  }

  lemma ParseNameComplete(s: string, k: nat, isObject: bool, n: Name)
    requires IsName(isObject, n) && At(s, k, NameText(n))
    requires var e := k + |NameText(n)|; e < |s| && !IsWs(s[e])
    ensures ParseName(s, k, isObject) == Done(n, k + |NameText(n)|)
  {
    if isObject {
      NamedReads(s, k, n.key, n.w1, n.w2) by { assert n == Named(n.key, n.w1, n.w2); }
    }
  }

  lemma NameIs(key: string, w1: string, w2: string)
    ensures NameText(Named(key, w1, w2)) == "\"" + (key + ("\"" + (w1 + (":" + w2))))
  {
  }

  lemma NamedReads(s: string, k: nat, key: string, w1: string, w2: string)
    requires IsBody(key, false) && AllWs(w1) && AllWs(w2) && At(s, k, NameText(Named(key, w1, w2)))
    requires var e := k + |NameText(Named(key, w1, w2))|; e < |s| && !IsWs(s[e])
    ensures ParseName(s, k, true) == Done(Named(key, w1, w2), k + |NameText(Named(key, w1, w2))|)
  {
    hide At, AllWs, BodyEnd, IsBody, EatWs, NameText, ParseName;
    var e := k + 1 + |key|;
    var colon := e + 1 + |w1|;
    NameIs(key, w1, w2);
    QuotedParts(s, k, key, w1 + (":" + w2));
    ColonParts(s, e + 1, w1, w2);
    BodyEndComplete(s, k + 1, key, false);
    EatWsOver(s, e + 1, w1);
    EatWsOver(s, colon + 1, w2);
    NameReads(s, k, e, colon, colon + 1 + |w2|);
  }

  /** What a value may begin with; never white space, a ',' or a closing bracket. */
  lemma ValueStart(v: Value)
    requires IsValue(v)
    ensures ValueText(v) != ""
    ensures var c := ValueText(v)[0]; !IsWs(c) && c != ',' && c != '}' && c != ']' && c != ':'
    ensures v.Num? ==> ValueText(v)[0] == '-' || IsDigit(ValueText(v)[0])
  {
    if v.Num? {
      assert IsDigit(v.number.whole[0]);
    }
  }

  lemma WsStart(ws: string)
    requires ws != "" && AllWs(ws)
    ensures IsWs(ws[0]) && !IsNumberByte(ws[0])
  {
  }

  lemma CloseStops(isObject: bool)
    ensures var c := Close(isObject); !IsWs(c) && !IsNumberByte(c) && c != ','
    ensures !IsWs(',') && !IsNumberByte(',')
  {
  }

  lemma NameStart(isObject: bool, n: Name)
    requires IsName(isObject, n)
    ensures if isObject then NameText(n) != "" && NameText(n)[0] == '"' else NameText(n) == ""
  {
  }

  lemma ItemParts(s: string, c: nat, item: Item)
    requires At(s, c, ItemText(item))
    ensures
      var k := c + |item.lead|;
      var v := k + |NameText(item.name)|;
      var w := v + |ValueText(item.value)|;
      && At(s, c, item.lead) && At(s, k, NameText(item.name)) && At(s, v, ValueText(item.value))
      && At(s, w, item.after) && c + |ItemText(item)| == w + |item.after| <= |s|
      && s[c..k] == item.lead && s[w..w + |item.after|] == item.after
  {
    hide At, NameText, ValueText;
    var k := c + |item.lead|;
    var v := k + |NameText(item.name)|;
    var w := v + |ValueText(item.value)|;
    AtSplit(s, c, item.lead, NameText(item.name) + (ValueText(item.value) + item.after));
    AtSplit(s, k, NameText(item.name), ValueText(item.value) + item.after);
    AtSplit(s, v, ValueText(item.value), item.after);
    AtIs(s, c, item.lead);
    AtIs(s, w, item.after);
  }

  /** Reading an item whose seams are known. */
  lemma ItemReads(s: string, c: nat, isObject: bool, k: nat, name: Parsed<Name>, value: Parsed<Value>, end: nat)
    requires c <= |s| && EatWs(s, c) == k && ParseName(s, k, isObject) == name && name.Done?
    requires ParseValue(s, name.end) == value && value.Done? && EatWs(s, value.end) == end
    ensures ParseItem(s, c, isObject) == Done(Item(s[c..k], name.tree, value.tree, s[value.end..end]), end)
    decreases |s| - c, 3
  {
    hide EatWs, ParseName, ParseValue;
  }

  /** What stands at the seams of an item. */
  lemma ItemBytes(s: string, c: nat, isObject: bool, item: Item)
    requires IsItem(isObject, item) && At(s, c, ItemText(item))
    requires var e := c + |ItemText(item)|; e < |s| && !IsWs(s[e]) && !IsNumberByte(s[e])
    ensures
      var k := c + |item.lead|;
      var v := k + |NameText(item.name)|;
      var w := v + |ValueText(item.value)|;
      && k < v + 1 <= w < |s| && !IsWs(s[k]) && s[k] != Close(isObject) && !IsWs(s[v]) && !IsNumberByte(s[w])
  {
    hide At, AllWs, IsName, ItemText, NameText, ValueText, IsValue;
    var k := c + |item.lead|;
    var v := k + |NameText(item.name)|;
    var w := v + |ValueText(item.value)|;
    ItemParts(s, c, item);
    ValueStart(item.value);
    AtByte(s, v, ValueText(item.value), 0);
    NameStart(isObject, item.name);
    if isObject {
      AtByte(s, k, NameText(item.name), 0);
    }
    if item.after != "" {
      WsStart(item.after);
      AtByte(s, w, item.after, 0);
    }
  }

  lemma {:induction false} ParseItemComplete(s: string, c: nat, isObject: bool, item: Item)
    requires IsItem(isObject, item) && At(s, c, ItemText(item))
    requires var e := c + |ItemText(item)|; e < |s| && !IsWs(s[e]) && !IsNumberByte(s[e])
    ensures ParseItem(s, c, isObject) == Done(item, c + |ItemText(item)|)
    ensures var k := EatWs(s, c); k < |s| && s[k] != Close(isObject)
    decreases item, 2
  {
    hide At, AllWs, IsName, ItemText, ParseName, NameText, ParseValue, ValueText, IsValue, EatWs, ParseItem;
    var k := c + |item.lead|;
    var v := k + |NameText(item.name)|;
    var w := v + |ValueText(item.value)|;
    ItemParts(s, c, item);
    ItemBytes(s, c, isObject, item);
    ParseValueComplete(s, v, item.value);
    ItemFrame(s, c, isObject, item);
    ItemReads(s, c, isObject, k, Done(item.name, v), Done(item.value, w), w + |item.after|);
  }

  /** The white space and the name of an item, read. */
  lemma ItemFrame(s: string, c: nat, isObject: bool, item: Item)
    requires IsItem(isObject, item) && At(s, c, ItemText(item))
    requires var e := c + |ItemText(item)|; e < |s| && !IsWs(s[e]) && !IsNumberByte(s[e])
    ensures
      var k := c + |item.lead|;
      var v := k + |NameText(item.name)|;
      var w := v + |ValueText(item.value)|;
      && w + |item.after| == c + |ItemText(item)| <= |s|
      && EatWs(s, c) == k && ParseName(s, k, isObject) == Done(item.name, v) && EatWs(s, w) == w + |item.after|
  {
    hide At, AllWs, IsName, ItemText, ParseName, NameText, ParseValue, ValueText, IsValue, EatWs, ParseItem;
    var k := c + |item.lead|;
    var w := k + |NameText(item.name)| + |ValueText(item.value)|;
    ItemParts(s, c, item);
    ItemBytes(s, c, isObject, item);
    EatWsOver(s, c, item.lead);
    ParseNameComplete(s, k, isObject, item.name);
    EatWsOver(s, w, item.after);
  }

  lemma ItemsParts(s: string, c: nat, isObject: bool, items: Items)
    requires At(s, c, ItemsText(isObject, items))
    ensures var close := Close(isObject); var end := c + |ItemsText(isObject, items)|;
      match items
      case Blank(ws) => At(s, c, ws) && s[c..c + |ws|] == ws && end == c + |ws| + 1 && s[end - 1] == close
      case Last(item) => At(s, c, ItemText(item)) && end == c + |ItemText(item)| + 1 && s[end - 1] == close
      case More(item, rest) =>
        var comma := c + |ItemText(item)|;
        && At(s, c, ItemText(item)) && comma < |s| && s[comma] == ','
        && At(s, comma + 1, ItemsText(isObject, rest)) && end == comma + 1 + |ItemsText(isObject, rest)|
  {
    hide At, ItemText, Close;
    match items {
      case Blank(ws) =>
        AtSplit(s, c, ws, [Close(isObject)]);
        AtIs(s, c, ws);
        AtByte(s, c + |ws|, [Close(isObject)], 0);
      case Last(item) =>
        AtSplit(s, c, ItemText(item), [Close(isObject)]);
        AtByte(s, c + |ItemText(item)|, [Close(isObject)], 0);
      case More(item, rest) =>
        AtSplit(s, c, ItemText(item), "," + ItemsText(isObject, rest));
        AtSplit(s, c + |ItemText(item)|, ",", ItemsText(isObject, rest));
        AtByte(s, c + |ItemText(item)|, ",", 0);
    }
  }

  lemma {:induction false} ParseItemsComplete(s: string, c: nat, isObject: bool, items: Items, first: bool)
    requires IsItems(isObject, items, first) && At(s, c, ItemsText(isObject, items))
    ensures ParseItems(s, c, isObject, first) == Done(items, c + |ItemsText(isObject, items)|)
    decreases items, 1
  {
    hide At, AllWs, ParseItem, ItemText, ItemsText, IsItem, EatWs, IsWs, IsNumberByte, Close;
    CloseStops(isObject);
    ItemsParts(s, c, isObject, items);
    match items {
      case Blank(ws) =>
        EatWsOver(s, c, ws);
      case Last(item) =>
        ParseItemComplete(s, c, isObject, item);
      case More(item, rest) =>
        ParseItemComplete(s, c, isObject, item);
        ParseItemsComplete(s, c + |ItemText(item)| + 1, isObject, rest, false);
    }
  }
}
