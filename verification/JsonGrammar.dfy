/** The grammar of RFC 8259 as concrete syntax trees.

    A tree keeps every byte of the text it stands for, white space included, so that `ValueText` is a
    plain concatenation and "the text is a JSON value" reads as "some well-formed tree has this text".
    Strings are byte-level: a body is any run of bytes without control characters and quotes, with
    escapes of section 7. Objects and arrays share one shape: a bracketed list of items that carry a
    name in an object and none in an array. */
module JsonGrammar {
  import opened Bytes

  /** number = [ minus ] int [ frac ] [ exp ], section 6 of RFC 8259, cut at those seams. */
  datatype Number = Number(sign: string, whole: string, frac: string, exp: string)

  datatype Value =
    | Str(raw: string)
    | Num(number: Number)
    | Word(word: string)
    | Box(isObject: bool, items: Items)

  datatype Items =
    | Blank(ws: string)
    | Last(item: Item)
    | More(item: Item, rest: Items)

  datatype Item = Item(lead: string, name: Name, value: Value, after: string)

  datatype Name = NoName | Named(key: string, w1: string, w2: string)

  // ---------------------------------------------------------------- text

  function Open(isObject: bool): char { if isObject then '{' else '[' }

  function Close(isObject: bool): char { if isObject then '}' else ']' }

  function NumberText(n: Number): string { n.sign + n.whole + n.frac + n.exp }

  function NameText(n: Name): string {
    match n
    case NoName => ""
    case Named(key, w1, w2) => "\"" + (key + ("\"" + (w1 + (":" + w2))))
  }

  function ValueText(v: Value): (t: string)
    ensures v.Str? || v.Box? ==> t != ""
    decreases v, 1
  {
    match v
    case Str(raw) => "\"" + (raw + "\"")
    case Num(n) => NumberText(n)
    case Word(w) => w
    case Box(isObject, items) => [Open(isObject)] + ItemsText(isObject, items)
  }

  /** The text of a list of items, up to and including the closing bracket. */
  function ItemsText(isObject: bool, items: Items): (t: string)
    ensures t != ""
    decreases items, 1
  {
    match items
    case Blank(ws) => ws + [Close(isObject)]
    case Last(item) => ItemText(item) + [Close(isObject)]
    case More(item, rest) => ItemText(item) + ("," + ItemsText(isObject, rest))
  }

  function ItemText(item: Item): string
    decreases item, 2
  {
    item.lead + (NameText(item.name) + (ValueText(item.value) + item.after))
  }

  // -------------------------------------------------------- well-formedness

  predicate IsHex(c: char) {
    '0' <= c <= '9' || 'a' <= c <= 'f' || 'A' <= c <= 'F'
  }

  /** The escapes of section 7 other than the four-digit one. */
  predicate IsShortEscape(c: char) {
    c == '"' || c == '\\' || c == '/' || c == 'b' || c == 'f' || c == 'n' || c == 'r' || c == 't'
  }

  predicate IsControl(c: char) { c < ' ' }

  /** What may stand between the quotes of a string; `unicode` permits the four-digit escape. */
  predicate IsBody(raw: string, unicode: bool)
    decreases |raw|
  {
    if raw == "" then true
    else if raw[0] == '\\' then
      |raw| >= 2 &&
      if IsShortEscape(raw[1]) then IsBody(raw[2..], unicode)
      else
        && raw[1] == 'u' && unicode && |raw| >= 6
        && IsHex(raw[2]) && IsHex(raw[3]) && IsHex(raw[4]) && IsHex(raw[5])
        && IsBody(raw[6..], unicode)
    else
      !IsControl(raw[0]) && raw[0] != '"' && IsBody(raw[1..], unicode)
  }

  predicate IsDigits(s: string) { s != "" && AllDigits(s) }

  predicate IsFraction(s: string) { s == "" || (s[0] == '.' && IsDigits(s[1..])) }

  predicate IsSign(c: char) { c == '+' || c == '-' }

  predicate IsExponent(s: string) {
    s == "" ||
    (|s| >= 2 && (s[0] == 'e' || s[0] == 'E') && IsDigits(if IsSign(s[1]) then s[2..] else s[1..]))
  }

  predicate IsWhole(s: string) { IsDigits(s) && (s[0] == '0' ==> |s| == 1) }

  predicate IsNumber(n: Number) {
    (n.sign == "" || n.sign == "-") && IsWhole(n.whole) && IsFraction(n.frac) && IsExponent(n.exp)
  }

  predicate IsWord(w: string) { w == "true" || w == "false" || w == "null" }

  predicate IsValue(v: Value)
    decreases v, 1
  {
    match v
    case Str(raw) => IsBody(raw, true)
    case Num(n) => IsNumber(n)
    case Word(w) => IsWord(w)
    case Box(isObject, items) => IsItems(isObject, items, true)
  }

  /** A list of items; only a list that just opened may be blank. */
  predicate IsItems(isObject: bool, items: Items, first: bool)
    decreases items, 1
  {
    match items
    case Blank(ws) => first && AllWs(ws)
    case Last(item) => IsItem(isObject, item)
    case More(item, rest) => IsItem(isObject, item) && IsItems(isObject, rest, false)
  }

  /** Member names are literal in this protocol: no four-digit escapes. */
  predicate IsItem(isObject: bool, item: Item)
    decreases item, 2
  {
    && AllWs(item.lead) && AllWs(item.after)
    && IsName(isObject, item.name)
    && IsValue(item.value)
  }

  predicate IsName(isObject: bool, n: Name) {
    if isObject then n.Named? && IsBody(n.key, false) && AllWs(n.w1) && AllWs(n.w2) else n.NoName?
  }

  // ------------------------------------------------- depth and duplicates

  /** How many container levels a value has. */
  function Height(v: Value): nat
    decreases v, 1
  {
    if v.Box? then 1 + ItemsHeight(v.items) else 0
  }

  function ItemsHeight(items: Items): nat
    decreases items, 1
  {
    match items
    case Blank(_) => 0
    case Last(item) => Height(item.value)
    case More(item, rest) => Max(Height(item.value), ItemsHeight(rest))
  }

  function Max(a: nat, b: nat): nat { if a < b then b else a }

  /** The raw names of a list of items, in order; empty for an array. */
  function Names(items: Items): seq<string> {
    match items
    case Blank(_) => []
    case Last(item) => NameOf(item)
    case More(item, rest) => NameOf(item) + Names(rest)
  }

  function NameOf(item: Item): seq<string> {
    if item.name.Named? then [item.name.key] else []
  }

  predicate NoRepeats(names: seq<string>) {
    forall i, j | 0 <= i < j < |names| :: names[i] != names[j]
  }

  /** No object at any level of the value repeats a raw name. */
  predicate Distinct(v: Value)
    decreases v, 1
  {
    v.Box? ==> NoRepeats(Names(v.items)) && DistinctBelow(v.items)
  }

  predicate DistinctBelow(items: Items)
    decreases items, 1
  {
    match items
    case Blank(_) => true
    case Last(item) => Distinct(item.value)
    case More(item, rest) => Distinct(item.value) && DistinctBelow(rest)
  }

  // ------------------------------------------------------------ documents

  /** One object with white space around it. */
  datatype Document = Document(before: string, items: Items, after: string)

  function DocumentText(d: Document): string {
    d.before + (ValueText(Box(true, d.items)) + d.after)
  }

  predicate IsDocument(d: Document) {
    AllWs(d.before) && AllWs(d.after) && IsItems(true, d.items, true)
  }
}
