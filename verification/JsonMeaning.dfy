/** What the lenient readers read: off the syntax tree of a document, off the spelling of a string, off the parts
    of a number. */
module JsonMeaning {
  import opened Bytes
  import opened JsonGrammar
  import opened JsonLookup
  import opened JsonLenient
  import opened JsonRead
  import W = JsonWriter

  // ------------------------------------------------------- from a document

  /** In a well-formed document each reader sees the first member of the name, and only if it is of its type. */
  lemma DocumentReads(s: string, key: string, overflow: Overflow)
    requires ParseDocument(s).Done?
    ensures
      var m := MemberOf(ParseDocument(s).tree.items, key);
      && (RawStringOf(s, key) == if m.Some? && m.value.Str? then Some(m.value.raw) else None)
      && (ObjectOf(s, key) == if m.Some? && m.value.Box? && m.value.isObject then Some(ValueText(m.value)) else None)
      && (BoolOf(s, key)
          == if m.Some? && m.value.Word? && m.value.word != "null" then Some(m.value.word == "true") else None)
      && (IntegerOf(s, key, overflow)
          == if m.Some? && m.value.Num? then ReadIn(NumberText(m.value.number), overflow) else None)
  {
    hide ParseDocument, FindSpec, MemberOf, NumberText, ReadIn, LookupFrom, EatWs;
    DocumentFound(s, key);
  }

  // -------------------------------------------------------------- integers

  /** A number is read as an integer if and only if it has neither a fraction nor an exponent: it is never
      rounded. */
  lemma IntegerExactly(n: Number)
    requires IsNumber(n)
    ensures IntegerIn(NumberText(n))
         == if n.frac != "" || n.exp != "" then None
            else Some(if n.sign == "-" then -(DigitsValue(n.whole) as int) else DigitsValue(n.whole))
  {
    hide DigitsValue, IsDigits, NumberText, IsWhole, IsFraction, IsExponent;
    UnsignedText(n);
    DigitsAlone(n.whole, n.frac, n.exp);
  }

  lemma UnsignedText(n: Number)
    requires IsNumber(n)
    ensures Unsigned(NumberText(n)) == n.whole + n.frac + n.exp
    ensures NumberText(n) == n.whole + n.frac + n.exp <==> n.sign == ""
  {
    hide AllDigits, IsFraction, IsExponent;
    var text := n.sign + n.whole + n.frac + n.exp;
    assert IsDigit(n.whole[0]) by { FirstIsDigit(n.whole); }
    if n.sign == "" {
      assert text[0] == n.whole[0] && text == n.whole + n.frac + n.exp;
    } else {
      assert text[0] == '-' && text[1..] == n.whole + n.frac + n.exp;
      assert |text| == 1 + |n.whole + n.frac + n.exp|;
    }
  }

  lemma FirstIsDigit(whole: string)
    requires IsWhole(whole)
    ensures IsDigit(whole[0])
  {
  }

  lemma DigitsAlone(whole: string, frac: string, exp: string)
    requires IsWhole(whole) && IsFraction(frac) && IsExponent(exp)
    ensures IsDigits(whole + frac + exp) <==> frac == "" && exp == ""
    ensures frac == "" && exp == "" ==> whole + frac + exp == whole
  {
    var digits := whole + frac + exp;
    if frac != "" {
      assert digits[|whole|] == '.';
    } else if exp != "" {
      assert digits[|whole|] == exp[0];
    } else {
      assert digits == whole;
    }
  }

  // --------------------------------------------------------------- strings

  /** The short escapes of section 7 of RFC 8259: what may stand behind the backslash for a byte. */
  const SHORT: map<char, char> := map[
    '"' := '"', '\\' := '\\', '/' := '/', '\U{0008}' := 'b', '\U{000C}' := 'f', '\n' := 'n', '\r' := 'r', '\t' := 't']

  /** Every byte as it stands, or behind a backslash where `escaped` says so. */
  function Spelling(text: string, escaped: seq<bool>): string
    requires |escaped| == |text|
  {
    if text == "" then ""
    else
      (if escaped[0] && text[0] in SHORT then ['\\', SHORT[text[0]]] else [text[0]]) + Spelling(text[1..], escaped[1..])
  }

  /** Only bytes that have a short escape are escaped, and the backslash always is. */
  predicate Legible(text: string, escaped: seq<bool>) {
    && |escaped| == |text|
    && forall k | 0 <= k < |text| :: (escaped[k] ==> text[k] in SHORT) && (text[k] == '\\' ==> escaped[k])
  }

  lemma ShortEscapes(c: char)
    ensures c in SHORT ==> IsShortEscape(SHORT[c]) && EscapeByte(SHORT[c]) == c
    ensures IsShortEscape(c) ==> EscapeByte(c) in SHORT && SHORT[EscapeByte(c)] == c
  {
  }

  lemma {:induction false} SpellingReads(text: string, escaped: seq<bool>)
    requires Legible(text, escaped)
    ensures Unescape(Spelling(text, escaped)) == Some(text)
    decreases |text|
  {
    if text != "" {
      hide SHORT, EscapeByte;
      var rest := Spelling(text[1..], escaped[1..]);
      SpellingReads(text[1..], escaped[1..]);
      ShortEscapes(text[0]);
      assert [text[0]] + text[1..] == text;
      if escaped[0] {
        assert (['\\', SHORT[text[0]]] + rest)[2..] == rest;
      } else {
        assert ([text[0]] + rest)[1..] == rest;
      }
    }
  }

  lemma {:induction false} ReadIsSpelt(raw: string) returns (escaped: seq<bool>)
    requires Unescape(raw).Some?
    ensures Legible(Unescape(raw).value, escaped) && raw == Spelling(Unescape(raw).value, escaped)
    decreases |raw|
  {
    if raw == "" {
      escaped := [];
    } else {
      hide SHORT, EscapeByte, Legible;
      var n := if raw[0] == '\\' then 2 else 1;
      var rest := ReadIsSpelt(raw[n..]);
      escaped := [n == 2] + rest;
      var c := if n == 2 then EscapeByte(raw[1]) else raw[0];
      if n == 2 {
        ShortEscapes(raw[1]);
      }
      LegibleMore(c, Unescape(raw[n..]).value, n == 2, rest);
      assert raw == raw[..n] + raw[n..];
    }
  }

  lemma LegibleMore(c: char, text: string, escape: bool, escaped: seq<bool>)
    requires Legible(text, escaped) && (escape ==> c in SHORT) && (c == '\\' ==> escape)
    ensures Legible([c] + text, [escape] + escaped)
    ensures Spelling([c] + text, [escape] + escaped)
         == (if escape then ['\\', SHORT[c]] else [c]) + Spelling(text, escaped)
  {
    hide SHORT;
    assert ([c] + text)[1..] == text && ([escape] + escaped)[1..] == escaped;
  }

  /** A raw string reads as a text if and only if it spells it, byte by byte, with short escapes alone. */
  lemma UnescapeExactly(raw: string, text: string)
    ensures Unescape(raw) == Some(text) <==> exists escaped :: Legible(text, escaped) && raw == Spelling(text, escaped)
  {
    hide Unescape, Spelling;
    if Unescape(raw) == Some(text) {
      var escaped := ReadIsSpelt(raw);
    }
    forall escaped | Legible(text, escaped) && raw == Spelling(text, escaped) ensures Unescape(raw) == Some(text) {
      SpellingReads(text, escaped);
    }
  }

  function HexValue(c: char): nat
    requires IsHex(c)
  {
    if c <= '9' then c as nat - '0' as nat
    else if c <= 'F' then c as nat - 'A' as nat + 10
    else c as nat - 'a' as nat + 10
  }

  /** The printer writes the short escapes where it must, and any other control byte as its four-digit code. */
  lemma EscapeSpells(c: char)
    ensures
      var t := W.EscapeOf(c);
      if c in SHORT && c != '/' then t == ['\\', SHORT[c]]
      else if c >= ' ' then t == [c]
      else
        && |t| == 6 && t[..4] == "\\u00" && IsHex(t[4]) && IsHex(t[5])
        && HexValue(t[4]) * 16 + HexValue(t[5]) == c as int
  {
    hide HexValue, W.Hex;
    if c < ' ' {
      HexReads(c as int / 16);
      HexReads(c as int % 16);
    }
  }

  lemma HexReads(n: nat)
    requires n < 16
    ensures IsHex(W.Hex(n)) && HexValue(W.Hex(n)) == n
  {
  }
}
