/** Typed reading on top of the lenient scanner: raw strings, nested objects, integers, booleans, and
    undoing the escapes of a string into a fixed buffer. */
module JsonRead {
  import opened Bytes
  import opened JsonGrammar
  import opened JsonLookup
  import opened JsonLenient

  // ------------------------------------------------------- specification

  function SpanText(s: string, f: Found): string
    requires f.from <= f.to <= |s|
  {
    s[f.from..f.to]
  }

  /** The text of the first member `key`, when it is of the kind asked for. */
  function TextOf(s: string, key: string, kind: Kind): Option<string> {
    var f := FindSpec(s, key);
    if f.Some? && f.value.kind == kind then Some(SpanText(s, f.value)) else None
  }

  function RawStringOf(s: string, key: string): Option<string> { TextOf(s, key, StringKind) }

  function ObjectOf(s: string, key: string): Option<string> { TextOf(s, key, ObjectKind) }

  function BoolOf(s: string, key: string): Option<bool> {
    match TextOf(s, key, BooleanKind)
    case None => None
    case Some(t) => Some(t == "true")
  }

  function DigitsValue(s: string): nat
    requires AllDigits(s)
    decreases |s|
  {
    if s == "" then 0
    else DigitsValue(s[..|s| - 1]) * 10 + (s[|s| - 1] - '0') as nat
  }

  const MAX_INT64: int := 0x7FFF_FFFF_FFFF_FFFF

  /** What the digits of a number overflow to. They are added up in 64 bits and nothing is checked, so the
      language leaves the outcome open: a span may then read as any value, or, if it is not in the map, as none.
      A map is enough, since only finitely many spans are ever read. */
  type Overflow = map<string, int>

  function Unsigned(span: string): string {
    if span != "" && span[0] == '-' then span[1..] else span
  }

  /** The value of a number span; fractions and exponents are refused, not rounded. */
  function IntegerIn(span: string): Option<int> {
    var digits := Unsigned(span);
    if IsDigits(digits) then Some(if digits != span then -(DigitsValue(digits) as int) else DigitsValue(digits))
    else None
  }

  /** Adding up the digits leaves the range of a signed 64-bit integer. */
  predicate Overflows(span: string) {
    var digits := Unsigned(span);
    exists n | 0 <= n <= |digits| :: AllDigits(digits[..n]) && DigitsValue(digits[..n]) > MAX_INT64
  }

  function Overflown(span: string, overflow: Overflow): Option<int> {
    if span in overflow then Some(overflow[span]) else None
  }

  function ReadIn(span: string, overflow: Overflow): Option<int> {
    if Overflows(span) then Overflown(span, overflow) else IntegerIn(span)
  }

  /** The integer that a member states, and whether reading it overflows. */
  function StatedInteger(s: string, key: string): Option<int> {
    match TextOf(s, key, NumberKind)
    case None => None
    case Some(t) => IntegerIn(t)
  }

  predicate Overflowing(s: string, key: string) {
    var t := TextOf(s, key, NumberKind);
    t.Some? && Overflows(t.value)
  }

  /** The integer that is read for a member. */
  function IntegerOf(s: string, key: string, overflow: Overflow): Option<int> {
    match TextOf(s, key, NumberKind)
    case None => None
    case Some(t) => ReadIn(t, overflow)
  }

  lemma ReadsAsStated(s: string, key: string, overflow: Overflow)
    ensures !Overflowing(s, key) ==> IntegerOf(s, key, overflow) == StatedInteger(s, key)
  {
    hide TextOf, Overflows, IntegerIn;
  }

  /** The byte that a short escape stands for. */
  function EscapeByte(e: char): char
    requires IsShortEscape(e)
  {
    match e
    case 'b' => '\U{0008}'
    case 'f' => '\U{000C}'
    case 'n' => '\n'
    case 'r' => '\r'
    case 't' => '\t'
    case _ => e
  }

  /** The text that a raw string stands for; four-digit escapes and cut-off escapes have none. */
  function Unescape(raw: string): (r: Option<string>)
    ensures r.Some? ==> |r.value| <= |raw|
    decreases |raw|
  {
    if raw == "" then Some("")
    else if raw[0] != '\\' then Prepend(raw[0], Unescape(raw[1..]))
    else if |raw| < 2 || !IsShortEscape(raw[1]) then None
    else Prepend(EscapeByte(raw[1]), Unescape(raw[2..]))
  }

  function Prepend(c: char, rest: Option<string>): Option<string> {
    match rest
    case None => None
    case Some(t) => Some([c] + t)
  }

  // -------------------------------------------------------------- methods

  method JsonFindRawString(s: string, key: string) returns (r: Option<string>)
    ensures r == RawStringOf(s, key)
  {
    var f := FindMember(s, key);
    if f.None? || f.value.kind != StringKind {
      return None;
    }
    return Some(s[f.value.from..f.value.to]);
  }

  method JsonFindObject(s: string, key: string) returns (r: Option<string>)
    ensures r == ObjectOf(s, key)
  {
    var f := FindMember(s, key);
    if f.None? || f.value.kind != ObjectKind {
      return None;
    }
    return Some(s[f.value.from..f.value.to]);
  }

  method JsonFindBool(s: string, key: string) returns (r: Option<bool>)
    ensures r == BoolOf(s, key)
  {
    var f := FindMember(s, key);
    if f.None? || f.value.kind != BooleanKind {
      return None;
    }
    return Some(s[f.value.from..f.value.to] == "true");
  }

  method JsonFindInteger(s: string, key: string, overflow: Overflow) returns (r: Option<int>)
    ensures r == IntegerOf(s, key, overflow)
  {
    hide FindSpec, Overflows, IntegerIn;
    var f := FindMember(s, key);
    if f.None? || f.value.kind != NumberKind {
      return None;
    }
    r := ReadInteger(s[f.value.from..f.value.to], overflow);
  }

  /** Add up the digits; from the first sum that does not fit on, the result is whatever it overflows to. */
  method ReadInteger(span: string, overflow: Overflow) returns (r: Option<int>)
    ensures r == ReadIn(span, overflow)
  {
    hide Overflows, DigitsValue, AllDigits;
    NoDigits();
    var negative := false;
    var i := 0;
    if i < |span| && span[i] == '-' {
      negative := true;
      i := i + 1;
    }
    ghost var digits := Unsigned(span);
    ghost var first := i;
    assert digits == span[first..];
    if i >= |span| {
      Fits(span, 0);
      return None;
    }
    var value := 0;
    while i < |span|
      invariant first <= i <= |span| && AllDigits(digits[..i - first])
      invariant value == DigitsValue(digits[..i - first]) <= MAX_INT64
    {
      var c := span[i];
      assert digits[i - first] == c;
      if !IsDigit(c) {
        Fits(span, i - first);
        NotAllDigits(digits, i - first);
        return None;
      }
      DigitsOn(digits, i - first);
      if value * 10 + (c - '0') as nat > MAX_INT64 {
        Outgrows(span, i - first + 1);
        return Overflown(span, overflow);
      }
      value := value * 10 + (c - '0') as nat;
      i := i + 1;
    }
    Fits(span, i - first);
    assert digits[..i - first] == digits;
    return Some(if negative then -value else value);
  }

  /** More digits never make the value smaller. */
  lemma {:induction false} DigitsGrowUp(digits: string, n: nat)
    requires AllDigits(digits) && n <= |digits|
    ensures AllDigits(digits[..n]) && DigitsValue(digits[..n]) <= DigitsValue(digits)
    decreases |digits|
  {
    if n < |digits| {
      assert digits[..|digits| - 1][..n] == digits[..n];
      DigitsGrowUp(digits[..|digits| - 1], n);
    } else {
      assert digits[..n] == digits;
    }
  }

  /** What has been added up to the end of the digits fits, so no part of it overflowed. */
  lemma NoDigits()
    ensures AllDigits("") && DigitsValue("") == 0
  {
  }

  lemma NotAllDigits(digits: string, n: nat)
    requires n < |digits| && !IsDigit(digits[n])
    ensures !AllDigits(digits)
  {
  }

  lemma DigitsOn(digits: string, n: nat)
    requires n < |digits| && AllDigits(digits[..n]) && IsDigit(digits[n])
    ensures AllDigits(digits[..n + 1])
    ensures DigitsValue(digits[..n + 1]) == DigitsValue(digits[..n]) * 10 + (digits[n] - '0') as nat
  {
    hide AllDigits, DigitsValue;
    assert digits[..n + 1] == digits[..n] + [digits[n]];
    DigitsGrow(digits[..n], digits[n]);
  }

  lemma Fits(span: string, n: nat)
    requires n <= |Unsigned(span)| && AllDigits(Unsigned(span)[..n]) && DigitsValue(Unsigned(span)[..n]) <= MAX_INT64
    requires n < |Unsigned(span)| ==> !IsDigit(Unsigned(span)[n])
    ensures !Overflows(span)
  {
    var digits := Unsigned(span);
    forall k | 0 <= k <= |digits| ensures AllDigits(digits[..k]) ==> DigitsValue(digits[..k]) <= MAX_INT64 {
      if k > n {
        assert digits[..k][n] == digits[n];
      } else {
        DigitsGrowUp(digits[..n], k);
        assert digits[..n][..k] == digits[..k];
      }
    }
  }

  lemma Outgrows(span: string, n: nat)
    requires n <= |Unsigned(span)| && AllDigits(Unsigned(span)[..n]) && DigitsValue(Unsigned(span)[..n]) > MAX_INT64
    ensures Overflows(span)
  {
  }

  lemma DigitsGrow(digits: string, c: char)
    requires AllDigits(digits) && IsDigit(c)
    ensures AllDigits(digits + [c])
    ensures DigitsValue(digits + [c]) == DigitsValue(digits) * 10 + (c - '0') as nat
  {
    assert (digits + [c])[..|digits|] == digits;
  }

  /** Undo the escapes of `raw` into `out[at..at + capacity]`; nothing outside that window is written. */
  method JsonUnescape(raw: string, out: array?<char>, at: nat, capacity: nat) returns (r: Option<nat>)
    requires out != null ==> at + capacity <= out.Length
    modifies out
    ensures r.Some? <==> out != null && Unescape(raw).Some? && |Unescape(raw).value| <= capacity
    ensures r.Some? ==> r.value == |Unescape(raw).value| && out[at..at + r.value] == Unescape(raw).value
    ensures out != null ==> out[..at] == old(out[..at]) && out[at + capacity..] == old(out[at + capacity..])
  {
    if out == null {
      return None;
    }
    var written := 0;
    var i := 0;
    assert raw[0..] == raw;
    JoinEmpty(Unescape(raw));
    assert out[at..at] == "";
    while i < |raw|
      invariant 0 <= i <= |raw| && 0 <= written <= capacity
      invariant Unescape(raw) == Join(out[at..at + written], Unescape(raw[i..]))
      invariant out[..at] == old(out[..at]) && out[at + capacity..] == old(out[at + capacity..])
    {
      var c := raw[i];
      ghost var rest := raw[i..];
      ghost var done := out[at..at + written];
      if c == '\\' {
        if i + 1 >= |raw| {
          return None;
        }
        var e := raw[i + 1];
        if !IsShortEscape(e) {
          return None;
        }
        c := EscapeByte(e);
        i := i + 2;
      } else {
        i := i + 1;
      }
      assert raw[i..] == rest[if rest[0] == '\\' then 2 else 1..];
      if written >= capacity {
        return None;
      }
      out[at + written] := c;
      written := written + 1;
      assert out[at..at + written] == done + [c];
      JoinPrepend(done, c, Unescape(raw[i..]));
    }
    return Some(written);
  }

  function Join(a: string, rest: Option<string>): Option<string> {
    match rest
    case None => None
    case Some(t) => Some(a + t)
  }

  lemma JoinEmpty(rest: Option<string>)
    ensures Join("", rest) == rest
  {
    if rest.Some? {
      assert "" + rest.value == rest.value;
    }
  }

  lemma JoinPrepend(a: string, c: char, rest: Option<string>)
    ensures Join(a, Prepend(c, rest)) == Join(a + [c], rest)
  {
    if rest.Some? {
      assert a + ([c] + rest.value) == (a + [c]) + rest.value;
    }
  }
}
