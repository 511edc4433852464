/** The bounded printer.

    `Page` is what a writer has produced so far, and `Apply` what one call does to it. The class is proved
    to do exactly that to its fields. A page may also be endless: the same calls with no capacity. The
    theorem that ties the two together (`Faithful`) is the promise of the source: a page is either the
    whole output or known to have overflowed, never a truncated document taken for a success. */
module JsonWriter {
  import opened JsonGrammar

  const MAX_DEPTH := 12

  /** Written text, bytes asked for, open brackets, and whether a value must be preceded by a comma. */
  datatype Page = Page(text: string, required: nat, stack: seq<bool>, overflowed: bool, comma: bool)

  datatype Paper = Sheet(capacity: nat) | Endless

  datatype Op =
    | Begin(isObject: bool)
    | End(isObject: bool)
    | Key(name: string)
    | Text(text: string)
    | Flag(flag: bool)
    | Natural(n: nat)
    | Integer(i: int)
    | Null
    | Raw(json: string)

  const BLANK_PAGE := Page("", 0, [], false, false)

  // ------------------------------------------------------- text of a value

  function Hex(n: nat): char
    requires n < 16
  {
    "0123456789abcdef"[n]
  }

  function EscapeOf(c: char): string {
    match c
    case '"' => "\\\""
    case '\\' => "\\\\"
    case '\n' => "\\n"
    case '\r' => "\\r"
    case '\t' => "\\t"
    case '\U{0008}' => "\\b"
    case '\U{000C}' => "\\f"
    case _ => if c < ' ' then "\\u00" + [Hex(c as int / 16), Hex(c as int % 16)] else [c]
  }

  function Escape(text: string): string {
    if text == "" then "" else EscapeOf(text[0]) + Escape(text[1..])
  }

  function Quoted(text: string): string { "\"" + Escape(text) + "\"" }

  function DigitChar(d: nat): char
    requires d < 10
  {
    '0' + d as char
  }

  function DigitsOf(n: nat): string {
    if n == 0 then "" else DigitsOf(n / 10) + [DigitChar(n % 10)]
  }

  function NaturalText(n: nat): string { if n == 0 then "0" else DigitsOf(n) }

  function IntegerText(i: int): string { if i < 0 then "-" + NaturalText(-i) else NaturalText(i) }

  // ------------------------------------------------------------ the calls

  function Put(p: Page, paper: Paper, c: char): Page {
    if paper.Sheet? && (p.overflowed || |p.text| + 1 > paper.capacity)
    then p.(required := p.required + 1, overflowed := true)
    else p.(required := p.required + 1, text := p.text + [c])
  }

  function PutText(p: Page, paper: Paper, text: string): Page
    decreases |text|
  {
    if text == "" then p else PutText(Put(p, paper, text[0]), paper, text[1..])
  }

  function Separate(p: Page, paper: Paper): Page {
    if p.comma then Put(p, paper, ',') else p
  }

  function PutValue(p: Page, paper: Paper, text: string): Page {
    PutText(Separate(p, paper), paper, text).(comma := true)
  }

  function Apply(p: Page, paper: Paper, op: Op): Page {
    match op
    case Begin(isObject) =>
      var q := Separate(p, paper);
      if |q.stack| >= MAX_DEPTH then q.(overflowed := true)
      else Put(q, paper, Open(isObject)).(stack := q.stack + [isObject], comma := false)
    case End(isObject) =>
      if p.stack == [] || p.stack[|p.stack| - 1] != isObject then p.(overflowed := true)
      else Put(p, paper, Close(isObject)).(stack := p.stack[..|p.stack| - 1], comma := true)
    case Key(name) => PutText(Separate(p, paper), paper, Quoted(name) + ":").(comma := false)
    case Text(text) => PutValue(p, paper, Quoted(text))
    case Flag(flag) => PutValue(p, paper, if flag then "true" else "false")
    case Natural(n) => PutValue(p, paper, NaturalText(n))
    case Integer(i) => PutValue(p, paper, IntegerText(i))
    case Null => PutValue(p, paper, "null")
    case Raw(json) => PutValue(p, paper, json)
  }

  function Run(p: Page, paper: Paper, ops: seq<Op>): Page
    decreases |ops|
  {
    if ops == [] then p else Run(Apply(p, paper, ops[0]), paper, ops[1..])
  }

  // --------------------------------------- a bounded page and the endless one

  /** The page `w` of `capacity` bytes shows the endless page `e` faithfully. */
  predicate Shows(w: Page, e: Page, capacity: nat) {
    && w.stack == e.stack && w.comma == e.comma
    && w.required == e.required == |e.text|
    && w.text <= e.text && |w.text| <= capacity
    && (w.overflowed <==> e.overflowed || |e.text| > capacity)
    && (!w.overflowed ==> w.text == e.text)
  }

  lemma {:induction false} PutTextShows(w: Page, e: Page, capacity: nat, text: string)
    requires Shows(w, e, capacity)
    ensures Shows(PutText(w, Sheet(capacity), text), PutText(e, Endless, text), capacity)
    decreases |text|
  {
    if text != "" {
      PutTextShows(Put(w, Sheet(capacity), text[0]), Put(e, Endless, text[0]), capacity, text[1..]);
    }
  }

  lemma PutShows(w: Page, e: Page, capacity: nat, c: char)
    requires Shows(w, e, capacity)
    ensures var w1, e1 := Put(w, Sheet(capacity), c), Put(e, Endless, c);
      Shows(w1, e1, capacity) && w1.stack == e1.stack == w.stack && w1.comma == e1.comma == w.comma
  {
  }

  /** Shown pages stay shown when their brackets or their overflow are noted alike. */
  lemma NoteShows(w: Page, e: Page, capacity: nat, stack: seq<bool>, comma: bool)
    requires Shows(w, e, capacity)
    ensures w.stack == e.stack && w.comma == e.comma
    ensures Shows(w.(stack := stack, comma := comma), e.(stack := stack, comma := comma), capacity)
    ensures Shows(w.(overflowed := true), e.(overflowed := true), capacity)
  {
  }

  lemma BeginShows(w: Page, e: Page, capacity: nat, isObject: bool)
    requires Shows(w, e, capacity)
    ensures Shows(Apply(w, Sheet(capacity), Begin(isObject)), Apply(e, Endless, Begin(isObject)), capacity)
  {
    hide Shows, Put;
    PutShows(w, e, capacity, ',');
    NoteShows(w, e, capacity, w.stack, w.comma);
    var w1, e1 := Separate(w, Sheet(capacity)), Separate(e, Endless);
    NoteShows(w1, e1, capacity, w.stack, w.comma);
    PutShows(w1, e1, capacity, Open(isObject));
    NoteShows(Put(w1, Sheet(capacity), Open(isObject)), Put(e1, Endless, Open(isObject)), capacity,
              w.stack + [isObject], false);
  }

  lemma EndShows(w: Page, e: Page, capacity: nat, isObject: bool)
    requires Shows(w, e, capacity)
    ensures Shows(Apply(w, Sheet(capacity), End(isObject)), Apply(e, Endless, End(isObject)), capacity)
  {
    hide Shows, Put;
    NoteShows(w, e, capacity, w.stack, w.comma);
    PutShows(w, e, capacity, Close(isObject));
    if w.stack != [] {
      NoteShows(Put(w, Sheet(capacity), Close(isObject)), Put(e, Endless, Close(isObject)), capacity,
                w.stack[..|w.stack| - 1], true);
    }
  }

  /** A name or a value, with the comma that goes before it. */
  lemma PlacedShows(w: Page, e: Page, capacity: nat, text: string)
    requires Shows(w, e, capacity)
    ensures Shows(PutValue(w, Sheet(capacity), text), PutValue(e, Endless, text), capacity)
    ensures Shows(PutText(Separate(w, Sheet(capacity)), Sheet(capacity), text).(comma := false),
                  PutText(Separate(e, Endless), Endless, text).(comma := false), capacity)
  {
    hide PutText;
    var w1, e1 := Separate(w, Sheet(capacity)), Separate(e, Endless);
    assert Shows(w1, e1, capacity);
    PutTextShows(w1, e1, capacity, text);
  }

  lemma ApplyShows(w: Page, e: Page, capacity: nat, op: Op)
    requires Shows(w, e, capacity)
    ensures Shows(Apply(w, Sheet(capacity), op), Apply(e, Endless, op), capacity)
  {
    hide PutText, PutValue, IntegerText, NaturalText, Quoted;
    match op {
      case Begin(isObject) => BeginShows(w, e, capacity, isObject);
      case End(isObject) => EndShows(w, e, capacity, isObject);
      case Key(name) => PlacedShows(w, e, capacity, Quoted(name) + ":");
      case Text(text) => PlacedShows(w, e, capacity, Quoted(text));
      case Flag(flag) => PlacedShows(w, e, capacity, if flag then "true" else "false");
      case Natural(n) => PlacedShows(w, e, capacity, NaturalText(n));
      case Integer(i) => PlacedShows(w, e, capacity, IntegerText(i));
      case Null => PlacedShows(w, e, capacity, "null");
      case Raw(json) => PlacedShows(w, e, capacity, json);
    }
    hide Shows;
  }

  lemma {:induction false} RunShows(w: Page, e: Page, capacity: nat, ops: seq<Op>)
    requires Shows(w, e, capacity)
    ensures Shows(Run(w, Sheet(capacity), ops), Run(e, Endless, ops), capacity)
    decreases |ops|
  {
    hide Apply, Shows;
    if ops != [] {
      ApplyShows(w, e, capacity, ops[0]);
      RunShows(Apply(w, Sheet(capacity), ops[0]), Apply(e, Endless, ops[0]), capacity, ops[1..]);
    }
  }

  /** Whatever calls are made, a page is valid exactly when the whole output fits and its brackets match,
      and then it holds the whole output; `required` is the size of the whole output in every case. */
  lemma Faithful(capacity: nat, ops: seq<Op>)
    ensures
      var w := Run(BLANK_PAGE, Sheet(capacity), ops);
      var e := Run(BLANK_PAGE, Endless, ops);
      && (IsValidPage(w) <==> IsValidPage(e) && |e.text| <= capacity)
      && (IsValidPage(w) ==> w.text == e.text)
      && w.text <= e.text
      && w.required == |e.text|
  {
    hide Run;
    RunShows(BLANK_PAGE, BLANK_PAGE, capacity, ops);
  }

  predicate IsValidPage(p: Page) { !p.overflowed && p.stack == [] }

  // -------------------------------------------------------------- the class

  lemma {:induction false} PutTextAppend(p: Page, paper: Paper, a: string, b: string)
    ensures PutText(p, paper, a + b) == PutText(PutText(p, paper, a), paper, b)
    decreases |a|
  {
    if a == "" {
      assert a + b == b;
    } else {
      assert (a + b)[1..] == a[1..] + b;
      PutTextAppend(Put(p, paper, a[0]), paper, a[1..], b);
    }
  }

  lemma DigitsOfLength(n: nat, k: nat)
    requires n < Power10(k)
    ensures |DigitsOf(n)| <= k
  {
    if n != 0 && k > 0 {
      DigitsOfLength(n / 10, k - 1);
    }
  }

  function Power10(k: nat): nat { if k == 0 then 1 else 10 * Power10(k - 1) }

  const MAX_UINT64: nat := 0xFFFF_FFFF_FFFF_FFFF

  function Reversed(s: string): string {
    if s == "" then "" else Reversed(s[1..]) + [s[0]]
  }

  /** The next digit from the end goes after those that are done. */
  lemma {:induction false} ReversedOn(digits: string, n: nat, done: string)
    requires n < |digits| && done + Reversed(digits[..n + 1]) == Reversed(digits)
    ensures (done + [digits[n]]) + Reversed(digits[..n]) == Reversed(digits)
  {
    hide Reversed;
    var front := digits[..n];
    assert digits[..n + 1] == front + [digits[n]];
    ReversedAppend(front, digits[n]);
    Rejoined(done, [digits[n]], Reversed(front));
  }

  lemma Rejoined(a: string, b: string, c: string)
    ensures a + (b + c) == (a + b) + c
  {
  }

  lemma NothingReversed(done: string, rest: string)
    requires rest == ""
    ensures done + Reversed(rest) == done
  {
  }

  lemma {:induction false} ReversedAppend(s: string, c: char)
    ensures Reversed(s + [c]) == [c] + Reversed(s)
    decreases |s|
  {
    if s == "" {
      assert s + [c] == [c];
    } else {
      assert (s + [c])[1..] == s[1..] + [c];
      ReversedAppend(s[1..], c);
    }
  }

  class JsonWriter {
    const buffer: array<char>
    const isObject: array<bool>
    var length: nat
    var required: nat
    var depth: nat
    var overflowed: bool
    var needsComma: bool

    ghost predicate Valid()
      reads this
    {
      length <= buffer.Length && isObject.Length == MAX_DEPTH && depth <= MAX_DEPTH
    }

    ghost function State(): Page
      reads this, buffer, isObject
      requires Valid()
    {
      Page(buffer[..length], required, isObject[..depth], overflowed, needsComma)
    }

    ghost function Size(): Paper { Sheet(buffer.Length) }

    constructor (buffer: array<char>)
      ensures Valid() && this.buffer == buffer && fresh(isObject) && State() == BLANK_PAGE
    {
      this.buffer := buffer;
      this.isObject := new bool[MAX_DEPTH];
      length, required, depth, overflowed, needsComma := 0, 0, 0, false, false;
    }

    method PutChar(c: char)
      requires Valid()
      modifies this, buffer
      ensures Valid() && State() == Put(old(State()), Size(), c)
    {
      required := required + 1;
      if overflowed || length + 1 > buffer.Length {
        overflowed := true;
        return;
      }
      buffer[length] := c;
      length := length + 1;
    }

    method PutString(text: string)
      requires Valid()
      modifies this, buffer
      ensures Valid() && State() == PutText(old(State()), Size(), text)
    {
      var i := 0;
      assert text[0..] == text;
      while i < |text|
        invariant 0 <= i <= |text| && Valid()
        invariant PutText(old(State()), Size(), text) == PutText(State(), Size(), text[i..])
      {
        assert text[i..][1..] == text[i + 1..];
        PutChar(text[i]);
        i := i + 1;
      }
    }

    method PutEscaped(text: string)
      requires Valid()
      modifies this, buffer
      ensures Valid() && State() == PutText(old(State()), Size(), Quoted(text))
    {
      hide Put, PutText, EscapeOf;
      ghost var start := State();
      PutString("\"");
      var i := 0;
      ghost var sofar := "\"";
      assert text[0..] == text;
      while i < |text|
        invariant 0 <= i <= |text| && Valid()
        invariant State() == PutText(start, Size(), sofar)
        invariant sofar + Escape(text[i..]) == "\"" + Escape(text)
      {
        assert text[i..][1..] == text[i + 1..];
        var piece := EscapeOf(text[i]);
        PutString(piece);
        PutTextAppend(start, Size(), sofar, piece);
        assert sofar + (piece + Escape(text[i + 1..])) == (sofar + piece) + Escape(text[i + 1..]);
        sofar := sofar + piece;
        i := i + 1;
      }
      PutString("\"");
      PutTextAppend(start, Size(), sofar, "\"");
      assert sofar + "\"" == Quoted(text);
    }

    method Separator()
      requires Valid()
      modifies this, buffer
      ensures Valid() && State() == Separate(old(State()), Size())
    {
      if needsComma {
        PutChar(',');
      }
    }

    method OpenBracket(asObject: bool)
      requires Valid()
      modifies this, buffer, isObject
      ensures Valid() && State() == Apply(old(State()), Size(), Begin(asObject))
    {
      Separator();
      if depth >= MAX_DEPTH {
        overflowed := true;
        return;
      }
      ghost var stack := isObject[..depth];
      isObject[depth] := asObject;
      depth := depth + 1;
      assert isObject[..depth] == stack + [asObject];
      PutChar(Open(asObject));
      needsComma := false;
    }

    method CloseBracket(asObject: bool)
      requires Valid()
      modifies this, buffer
      ensures Valid() && State() == Apply(old(State()), Size(), End(asObject))
    {
      if depth == 0 || isObject[depth - 1] != asObject {
        overflowed := true;
        return;
      }
      ghost var stack := isObject[..depth];
      depth := depth - 1;
      assert isObject[..depth] == stack[..depth];
      PutChar(Close(asObject));
      needsComma := true;
    }

    method WriteKey(name: string)
      requires Valid()
      modifies this, buffer
      ensures Valid() && State() == Apply(old(State()), Size(), Key(name))
    {
      hide Put, PutText, Escape;
      Separator();
      ghost var start := State();
      PutEscaped(name);
      PutString(":");
      PutTextAppend(start, Size(), Quoted(name), ":");
      needsComma := false;
    }

    method WriteText(text: string)
      requires Valid()
      modifies this, buffer
      ensures Valid() && State() == Apply(old(State()), Size(), Text(text))
    {
      Separator();
      PutEscaped(text);
      needsComma := true;
    }

    method WriteFlag(flag: bool)
      requires Valid()
      modifies this, buffer
      ensures Valid() && State() == Apply(old(State()), Size(), Flag(flag))
    {
      hide PutText;
      Separator();
      PutString(if flag then "true" else "false");
      needsComma := true;
    }

    method WriteNatural(number: nat)
      requires Valid() && number <= MAX_UINT64
      modifies this, buffer
      ensures Valid() && State() == Apply(old(State()), Size(), Natural(number))
    {
      hide Put, PutText, Reversed;
      Separator();
      ghost var start := State();
      if number == 0 {
        PutString("0");
      } else {
        var reversed, count := CollectDigits(number);
        ghost var digits := reversed[..count];
        ghost var done := "";
        PutTextNone(start, Size());
        while count > 0
          invariant 0 <= count <= |digits| <= reversed.Length && Valid() && reversed[..count] == digits[..count]
          invariant State() == PutText(start, Size(), done)
          invariant done + Reversed(digits[..count]) == Reversed(digits)
        {
          count := count - 1;
          ReversedOn(digits, count, done);
          assert reversed[count] == reversed[..count + 1][count];
          PutString([reversed[count]]);
          PutTextAppend(start, Size(), done, [digits[count]]);
          done := done + [digits[count]];
        }
        NothingReversed(done, digits[..0]);
      }
      needsComma := true;
    }

    method WriteInteger(number: int)
      requires Valid() && -0x8000_0000_0000_0000 <= number < 0x8000_0000_0000_0000
      modifies this, buffer
      ensures Valid() && State() == Apply(old(State()), Size(), Integer(number))
    {
      hide Put, PutText, NaturalText;
      if number < 0 {
        Separator();
        ghost var start := State();
        PutString("-");
        needsComma := false;
        ghost var middle := State();
        var magnitude := -(number + 1) + 1;
        WriteNatural(magnitude);
        PutTextAppend(start, Size(), "-", NaturalText(magnitude));
        PutTextIgnoresComma(PutText(start, Size(), "-"), Size(), NaturalText(magnitude));
        return;
      }
      WriteNatural(number);
    }

    method WriteNull()
      requires Valid()
      modifies this, buffer
      ensures Valid() && State() == Apply(old(State()), Size(), Null)
    {
      hide PutText;
      Separator();
      PutString("null");
      needsComma := true;
    }

    method WriteRaw(json: string)
      requires Valid()
      modifies this, buffer
      ensures Valid() && State() == Apply(old(State()), Size(), Raw(json))
    {
      hide PutText;
      Separator();
      PutString(json);
      needsComma := true;
    }

    method Reset()
      requires Valid()
      modifies this
      ensures Valid() && State() == BLANK_PAGE
    {
      length, required, depth, overflowed, needsComma := 0, 0, 0, false, false;
    }
  }

  /** The digits of a number, last digit first. */
  method CollectDigits(number: nat) returns (reversed: array<char>, count: nat)
    requires 0 < number <= MAX_UINT64
    ensures fresh(reversed) && count <= reversed.Length && Reversed(reversed[..count]) == DigitsOf(number)
  {
    reversed := new char[20];
    count := 0;
    var n := number;
    FitsTwenty(number);
    while n > 0
      invariant 0 <= count && count + |DigitsOf(n)| == |DigitsOf(number)| <= 20
      invariant DigitsOf(number) == DigitsOf(n) + Reversed(reversed[..count])
    {
      ghost var sofar := reversed[..count];
      reversed[count] := DigitChar(n % 10);
      n := n / 10;
      count := count + 1;
      assert reversed[..count] == sofar + [reversed[count - 1]];
      ReversedAppend(sofar, reversed[count - 1]);
    }
  }

  lemma PutTextNone(p: Page, paper: Paper)
    ensures PutText(p, paper, "") == p
  {
  }

  lemma {:induction false} PutTextIgnoresComma(p: Page, paper: Paper, text: string)
    ensures PutText(p.(comma := false), paper, text).(comma := true) == PutText(p, paper, text).(comma := true)
    decreases |text|
  {
    if text != "" {
      PutTextIgnoresComma(Put(p, paper, text[0]), paper, text[1..]);
    }
  }

  lemma FitsTwenty(n: nat)
    requires n <= MAX_UINT64
    ensures |DigitsOf(n)| <= 20
  {
    assert Power10(2) == 100;
    assert Power10(4) == 10_000;
    assert Power10(6) == 1_000_000;
    assert Power10(8) == 100_000_000;
    assert Power10(10) == 10_000_000_000;
    assert Power10(12) == 1_000_000_000_000;
    assert Power10(14) == 100_000_000_000_000;
    assert Power10(16) == 10_000_000_000_000_000;
    assert Power10(18) == 1_000_000_000_000_000_000;
    assert Power10(20) == 100_000_000_000_000_000_000;
    DigitsOfLength(n, 20);
  }
}
