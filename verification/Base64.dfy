/** Base64, section 4 of RFC 4648: the decoder of the source and the encoder of the standard.

    The decoder's shifts and masks act on disjoint bits, so they are written as sums. */
module Base64 {
  import opened Bytes

  newtype byte = n: int | 0 <= n < 256

  type Six = n: nat | n < 64

  // ------------------------------------------------------- specification

  predicate IsAlphabet(c: char) {
    'A' <= c <= 'Z' || 'a' <= c <= 'z' || '0' <= c <= '9' || c == '+' || c == '/'
  }

  function ValueOf(c: char): Six
    requires IsAlphabet(c)
  {
    if 'A' <= c <= 'Z' then (c - 'A') as nat
    else if 'a' <= c <= 'z' then (c - 'a') as nat + 26
    else if '0' <= c <= '9' then (c - '0') as nat + 52
    else if c == '+' then 62
    else 63
  }

  function CharOf(v: Six): char {
    if v < 26 then 'A' + v as char
    else if v < 52 then 'a' + (v - 26) as char
    else if v < 62 then '0' + (v - 52) as char
    else if v == 62 then '+'
    else '/'
  }

  /** The encoder of the standard. */
  function Encode(data: seq<byte>): string {
    if data == [] then ""
    else if |data| == 1 then
      [CharOf(S0(data[0])), CharOf(S1(data[0], 0))] + "=="
    else if |data| == 2 then
      [CharOf(S0(data[0])), CharOf(S1(data[0], data[1])), CharOf(S2(data[1], 0))] + "="
    else
      Encode3(data[0], data[1], data[2]) + Encode(data[3..])
  }

  function Encode3(x: byte, y: byte, z: byte): (t: string)
    ensures |t| == 4
  {
    [CharOf(S0(x)), CharOf(S1(x, y)), CharOf(S2(y, z)), CharOf(S3(z))]
  }

  function First(v0: Six, v1: Six): byte { (v0 * 4 + v1 / 16) as byte }

  function Second(v1: Six, v2: Six): byte { (v1 % 16 * 16 + v2 / 4) as byte }

  function Third(v2: Six, v3: Six): byte { (v2 % 4 * 64 + v3) as byte }

  /** One group of four characters; padding is allowed only in the last one. */
  function Group(c0: char, c1: char, c2: char, c3: char, last: bool): Option<seq<byte>> {
    if !IsAlphabet(c0) || !IsAlphabet(c1) then None
    else
      var b0 := First(ValueOf(c0), ValueOf(c1));
      if c2 == '=' then if last && c3 == '=' then Some([b0]) else None
      else if !IsAlphabet(c2) then None
      else
        var b1 := Second(ValueOf(c1), ValueOf(c2));
        if c3 == '=' then if last then Some([b0, b1]) else None
        else if !IsAlphabet(c3) then None
        else Some([b0, b1, Third(ValueOf(c2), ValueOf(c3))])
  }

  function Decode(text: string): Option<seq<byte>> {
    if text == "" then Some([])
    else if |text| < 4 then None
    else
      var g := Group(text[0], text[1], text[2], text[3], |text| == 4);
      var rest := Decode(text[4..]);
      if g.None? || rest.None? then None else Some(g.value + rest.value)
  }

  /** How many of the last two characters are padding. */
  function Padding(text: string): nat {
    if text == "" || text[|text| - 1] != '=' then 0
    else if |text| >= 2 && text[|text| - 2] == '=' then 2
    else 1
  }

  predicate IsBase64(text: string) {
    |text| % 4 == 0 && forall k | 0 <= k < |text| - Padding(text) :: IsAlphabet(text[k])
  }

  function DecodedSize(text: string): (r: Option<nat>)
    ensures r.None? <==> |text| % 4 != 0
  {
    if text == "" then Some(0)
    else if |text| % 4 != 0 then None
    else Some(|text| / 4 * 3 - Padding(text))
  }

  // ------------------------------------------------------------ the laws

  lemma ValueOfCharOf(v: Six)
    ensures IsAlphabet(CharOf(v)) && ValueOf(CharOf(v)) == v
  {
  }

  lemma CharOfValueOf(c: char)
    requires IsAlphabet(c)
    ensures CharOf(ValueOf(c)) == c
  {
  }

  lemma EqualsIsNoAlphabet()
    ensures !IsAlphabet('=')
  {
  }

  // The six-bit values of three bytes, and back.

  function S0(x: byte): Six { (x as nat) / 4 }

  function S1(x: byte, y: byte): Six { (x as nat) % 4 * 16 + (y as nat) / 16 }

  function S2(y: byte, z: byte): Six { (y as nat) % 16 * 4 + (z as nat) / 64 }

  function S3(z: byte): Six { (z as nat) % 64 }

  lemma BytesOfSixes(x: byte, y: byte, z: byte)
    ensures First(S0(x), S1(x, y)) == x
    ensures Second(S1(x, y), S2(y, z)) == y
    ensures Third(S2(y, z), S3(z)) == z
  {
  }

  lemma SixesOfBytes(v0: Six, v1: Six, v2: Six, v3: Six)
    ensures var x, y, z := First(v0, v1), Second(v1, v2), Third(v2, v3);
      S0(x) == v0 && S1(x, y) == v1 && S2(y, z) == v2 && S3(z) == v3
  {
  }

  lemma DecodeEncode3(x: byte, y: byte, z: byte, last: bool)
    ensures var t := Encode3(x, y, z); Group(t[0], t[1], t[2], t[3], last) == Some([x, y, z])
  {
    ValueOfCharOf(S0(x));
    ValueOfCharOf(S1(x, y));
    ValueOfCharOf(S2(y, z));
    ValueOfCharOf(S3(z));
    BytesOfSixes(x, y, z);
    EqualsIsNoAlphabet();
    hide CharOf, ValueOf, First, Second, Third, S0, S1, S2, S3, IsAlphabet;
  }

  /** The short groups at the end are as if zero bytes followed. */
  lemma DecodeEncodeTail(data: seq<byte>)
    requires |data| == 1 || |data| == 2
    ensures Decode(Encode(data)) == Some(data)
  {
    hide CharOf, ValueOf, First, Second, Third, S0, S1, S2, S3, IsAlphabet;
    var x := data[0];
    var y := if |data| == 2 then data[1] else 0;
    ValueOfCharOf(S0(x));
    ValueOfCharOf(S1(x, y));
    ValueOfCharOf(S2(y, 0));
    BytesOfSixes(x, y, 0);
    EqualsIsNoAlphabet();
    var t := Encode(data);
    assert |t| == 4 && t[4..] == "";
    assert Group(t[0], t[1], t[2], t[3], true) == Some(if |data| == 1 then [x] else [x, y]);
    hide Group;
    assert data == (if |data| == 1 then [x] else [x, y]) + [];
  }

  /** The decoder inverts the encoder, for every byte string. */
  lemma {:induction false} DecodeEncode(data: seq<byte>)
    ensures Decode(Encode(data)) == Some(data)
    decreases |data|
  {
    hide Group, Encode3;
    if |data| == 1 || |data| == 2 {
      DecodeEncodeTail(data);
    } else if |data| > 2 {
      var t := Encode3(data[0], data[1], data[2]);
      DecodeEncode3(data[0], data[1], data[2], |Encode(data)| == 4);
      DecodeEncode(data[3..]);
      assert Encode(data)[4..] == Encode(data[3..]);
      assert Encode(data)[..4] == t;
      assert data == [data[0], data[1], data[2]] + data[3..];
    }
  }

  lemma PaddingOfTail(text: string)
    requires |text| >= 6
    ensures Padding(text[4..]) == Padding(text)
  {
  }

  /** The decoder accepts exactly correctly padded text over the alphabet, and the size is exact. */
  lemma {:induction false} AcceptsExactly(text: string)
    ensures Decode(text).Some? <==> IsBase64(text)
    ensures Decode(text).Some? ==> DecodedSize(text) == Some(|Decode(text).value|)
    decreases |text|
  {
    hide ValueOf, CharOf, IsAlphabet, First, Second, Third;
    if |text| >= 4 {
      var tail := text[4..];
      AcceptsExactly(tail);
      EqualsIsNoAlphabet();
      if |text| >= 8 {
        PaddingOfTail(text);
        assert forall k | 4 <= k < |text| :: text[k] == tail[k - 4];
        assert IsBase64(text) ==> IsBase64(tail) by {
          assert forall k | 0 <= k < |tail| :: tail[k] == text[k + 4];
        }
      }
    }
  }

  /** The unused bits of the last group, which the decoder does not look at. */
  predicate TrailingBitsZero(text: string)
    requires IsBase64(text)
  {
    match Padding(text)
    case 0 => true
    case 1 => |text| >= 4 && ValueOf(text[|text| - 2]) % 4 == 0
    case _ => |text| >= 4 && ValueOf(text[|text| - 3]) % 16 == 0
  }

  lemma EncodeGroup(c0: char, c1: char, c2: char, c3: char)
    requires IsAlphabet(c0) && IsAlphabet(c1) && IsAlphabet(c2) && IsAlphabet(c3)
    ensures Encode3(First(ValueOf(c0), ValueOf(c1)), Second(ValueOf(c1), ValueOf(c2)), Third(ValueOf(c2), ValueOf(c3)))
         == [c0, c1, c2, c3]
  {
    CharOfValueOf(c0);
    CharOfValueOf(c1);
    CharOfValueOf(c2);
    CharOfValueOf(c3);
    SixesOfBytes(ValueOf(c0), ValueOf(c1), ValueOf(c2), ValueOf(c3));
    hide CharOf, ValueOf, First, Second, Third, S0, S1, S2, S3, IsAlphabet;
  }

  /** Encoding what was decoded gives the text back exactly when its unused bits are zero. */
  lemma {:induction false} EncodeDecode(text: string)
    requires Decode(text).Some?
    ensures IsBase64(text)
    ensures Encode(Decode(text).value) == text <==> TrailingBitsZero(text)
    decreases |text|
  {
    hide IsAlphabet, IsBase64, Encode3, First, Second, Third, ValueOf, CharOf, Padding;
    AcceptsExactly(text);
    if |text| == 4 {
      LastGroup(text);
    } else if text != "" {
      var tail := text[4..];
      AcceptsExactly(tail);
      EncodeDecode(tail);
      TailBits(text);
      EqualsIsNoAlphabet();
      var g := Group(text[0], text[1], text[2], text[3], false).value;
      EncodeGroup(text[0], text[1], text[2], text[3]);
      var d := g + Decode(tail).value;
      assert d[3..] == Decode(tail).value;
      assert Encode(d) == text[..4] + Encode(Decode(tail).value);
      assert text == text[..4] + tail;
      SameTail(text[..4], Encode(Decode(tail).value), tail);
    } else {
      NoBits();
    }
  }

  lemma SameTail(a: string, b: string, c: string)
    ensures a + b == a + c <==> b == c
  {
    if a + b == a + c {
      assert b == (a + b)[|a|..] == (a + c)[|a|..] == c;
    }
  }

  lemma NoBits()
    ensures IsBase64("") && TrailingBitsZero("")
  {
  }

  lemma TailBits(text: string)
    requires |text| > 4 && IsBase64(text) && IsBase64(text[4..])
    ensures TrailingBitsZero(text) <==> TrailingBitsZero(text[4..])
  {
    hide ValueOf;
    PaddingOfTail(text);
  }

  lemma LastGroup(text: string)
    requires |text| == 4 && IsBase64(text) && Decode(text).Some?
    ensures Encode(Decode(text).value) == text <==> TrailingBitsZero(text)
  {
    hide CharOf, ValueOf, S0, S1, S2, S3, First, Second, Third, IsAlphabet;
    var c0, c1, c2, c3 := text[0], text[1], text[2], text[3];
    var d := Group(c0, c1, c2, c3, true).value;
    assert text[4..] == "" && text == [c0, c1, c2, c3] && Decode(text).value == d + [] == d;
    CharOfValueOf(c0);
    CharOfValueOf(c1);
    EqualsIsNoAlphabet();
    if c2 == '=' {
      CutShort(ValueOf(c0), ValueOf(c1), 0);
      ValueOfCharOf(S1(d[0], 0));
    } else if c3 == '=' {
      CharOfValueOf(c2);
      CutShort(ValueOf(c0), ValueOf(c1), ValueOf(c2));
      ValueOfCharOf(S2(d[1], 0));
    } else {
      EncodeGroup(c0, c1, c2, c3);
      assert d[3..] == [];
    }
  }

  /** Re-encoding a group that was cut short gives its values back exactly when the cut bits were zero. */
  lemma CutShort(v0: Six, v1: Six, v2: Six)
    ensures S0(First(v0, v1)) == v0
    ensures S1(First(v0, v1), 0) == v1 <==> v1 % 16 == 0
    ensures S1(First(v0, v1), Second(v1, v2)) == v1
    ensures S2(Second(v1, v2), 0) == v2 <==> v2 % 4 == 0
  {
  }

  // -------------------------------------------------------------- method

  lemma SizeOfPrefix(text: string, groups: nat)
    requires DecodedSize(text).Some? && 4 * groups < |text|
    ensures var size := DecodedSize(text).value;
      && 4 * groups + 4 <= |text|
      && if 4 * groups + 4 == |text| then size == 3 * groups + 3 - Padding(text) else 3 * groups + 3 <= size
  {
  }

  /** Store the next byte; what lies from `size` on is left alone. */
  method StoreByte(out: array<byte>, at: nat, b: byte, ghost size: nat)
    requires at < size <= out.Length
    modifies out
    ensures out[..at + 1] == old(out[..at]) + [b] && out[size..] == old(out[size..])
  {
    out[at] := b;
  }

  /** Decode into `out`. On every run, failing ones included, only the first `DecodedSize` elements of
      `out` are written, and nothing at all when they do not fit. */
  method Base64Decode(text: string, out: array?<byte>, capacity: nat) returns (r: Option<nat>)
    requires out != null ==> capacity <= out.Length
    modifies out
    ensures r.Some? <==> out != null && Decode(text).Some? && |Decode(text).value| <= capacity
    ensures r.Some? ==> r.value == |Decode(text).value| && out[..r.value] == Decode(text).value
    ensures out != null ==>
      var size := if DecodedSize(text).Some? && DecodedSize(text).value <= capacity then DecodedSize(text).value else 0;
      out[size..] == old(out[size..])
  {
    hide Decode, Padding, DecodedSize, IsAlphabet, ValueOf, First, Second, Third, IsBase64, Joined;
    AcceptsExactly(text);
    NothingDecodes();
    var expected := DecodedSize(text);
    if expected.None? || expected.value > capacity || out == null {
      // The empty text has size 0, so here it can only have come without a buffer.
      return None;
    }
    if text == "" {
      assert out[..0] == [];
      return Some(0);
    }
    ghost var size := expected.value;
    ghost var tail := out[size..];
    ghost var groups := 0;
    var written := 0;
    var i := 0;
    assert text[0..] == text;
    JoinedNone(Decode(text));
    assert out[..0] == [];
    while i < |text|
      invariant 0 <= i <= |text|
      invariant i < |text| ==> i == 4 * groups && written == 3 * groups
      invariant 0 <= written <= size <= out.Length
      invariant Decode(text) == Joined(out[..written], Decode(text[i..]))
      invariant out[size..] == tail
    {
      SizeOfPrefix(text, groups);
      GroupJoins(text, i, out[..written]);
      var lastGroup := i + 4 == |text|;
      PaddingIs(text);
      var c0, c1, c2, c3 := text[i], text[i + 1], text[i + 2], text[i + 3];
      ghost var sofar := out[..written];
      if !IsAlphabet(c0) || !IsAlphabet(c1) {
        return None;
      }
      var v0, v1 := ValueOf(c0), ValueOf(c1);
      StoreByte(out, written, First(v0, v1), size);
      written := written + 1;
      assert out[..written] == sofar + [First(v0, v1)];
      if c2 == '=' {
        if !lastGroup || c3 != '=' {
          return None;
        }
        i := |text|;
        break;
      }
      if !IsAlphabet(c2) {
        return None;
      }
      var v2 := ValueOf(c2);
      StoreByte(out, written, Second(v1, v2), size);
      written := written + 1;
      assert out[..written] == sofar + [First(v0, v1), Second(v1, v2)];
      if c3 == '=' {
        if !lastGroup {
          return None;
        }
        i := |text|;
        break;
      }
      if !IsAlphabet(c3) {
        return None;
      }
      var v3 := ValueOf(c3);
      StoreByte(out, written, Third(v2, v3), size);
      written := written + 1;
      i, groups := i + 4, groups + 1;
      assert out[..written] == sofar + [First(v0, v1), Second(v1, v2), Third(v2, v3)];
    }
    assert text[|text|..] == "";
    JoinedAll(out[..written]);
    return Some(written);
  }

  function Joined(a: seq<byte>, rest: Option<seq<byte>>): Option<seq<byte>> {
    match rest
    case None => None
    case Some(b) => Some(a + b)
  }

  lemma NothingDecodes()
    ensures Decode("") == Some([]) && DecodedSize("") == Some(0)
  {
  }

  lemma JoinedAll(a: seq<byte>)
    ensures Joined(a, Some([])) == Some(a)
  {
    assert a + [] == a;
  }

  lemma JoinedNone(rest: Option<seq<byte>>)
    ensures Joined([], rest) == rest
  {
    if rest.Some? {
      assert [] + rest.value == rest.value;
    }
  }

  lemma JoinedTail(a: seq<byte>, b: seq<byte>, rest: Option<seq<byte>>)
    ensures Joined(a, Joined(b, rest)) == Joined(a + b, rest)
  {
    if rest.Some? {
      assert a + (b + rest.value) == a + b + rest.value;
    }
  }

  lemma DecodeStep(text: string, i: nat)
    requires i + 4 <= |text|
    ensures
      var g := Group(text[i], text[i + 1], text[i + 2], text[i + 3], i + 4 == |text|);
      Decode(text[i..]) == if g.None? then None else Joined(g.value, Decode(text[i + 4..]))
    ensures i + 4 == |text| ==> Decode(text[i + 4..]) == Some([])
  {
    hide Group;
    assert text[i..][4..] == text[i + 4..];
  }

  /** What one group adds to the bytes so far. */
  lemma GroupJoins(text: string, i: nat, sofar: seq<byte>)
    requires i + 4 <= |text| && Decode(text) == Joined(sofar, Decode(text[i..]))
    ensures
      var g := Group(text[i], text[i + 1], text[i + 2], text[i + 3], i + 4 == |text|);
      if g.None? then Decode(text) == None else Decode(text) == Joined(sofar + g.value, Decode(text[i + 4..]))
    ensures i + 4 == |text| ==> text[i + 4..] == text[|text|..]
  {
    hide Group, Decode;
    DecodeStep(text, i);
    var g := Group(text[i], text[i + 1], text[i + 2], text[i + 3], i + 4 == |text|);
    if g.Some? {
      JoinedTail(sofar, g.value, Decode(text[i + 4..]));
    }
  }

  lemma PaddingIs(text: string)
    requires |text| >= 4
    ensures Padding(text) == if text[|text| - 1] != '=' then 0 else if text[|text| - 2] != '=' then 1 else 2
  {
  }
}
