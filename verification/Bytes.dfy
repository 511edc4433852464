/** Byte strings, and the helpers that every reader in the model shares.

    A byte string is a `string` whose characters stand for bytes. Nothing in the readers depends on a
    character being below 256, so their theorems hold for every `string` and for byte strings in
    particular; the places where the numeric value of a byte matters say so. */
module Bytes {

  datatype Option<+T> = None | Some(value: T)

  /** Whether `text` stands in `s` at position `i`. */
  predicate At(s: string, i: nat, text: string)
    ensures At(s, i, text) ==> i + |text| <= |s|
  {
    i + |text| <= |s| && s[i..i + |text|] == text
  }

  lemma AtSplit(s: string, i: nat, a: string, b: string)
    requires At(s, i, a + b)
    ensures At(s, i, a) && At(s, i + |a|, b)
  {
    assert s[i..i + |a|] == (a + b)[..|a|];
    assert s[i + |a|..i + |a| + |b|] == (a + b)[|a|..];
  }

  lemma AtJoin(s: string, i: nat, a: string, b: string)
    requires At(s, i, a) && At(s, i + |a|, b)
    ensures At(s, i, a + b)
  {
    assert s[i..i + |a + b|] == s[i..i + |a|] + s[i + |a|..i + |a| + |b|];
  }

  lemma AtSlice(s: string, i: nat, j: nat)
    requires i <= j <= |s|
    ensures At(s, i, s[i..j])
  {
  }

  lemma AtIs(s: string, i: nat, text: string)
    requires At(s, i, text)
    ensures s[i..i + |text|] == text
  {
  }

  lemma AtOne(s: string, i: nat, c: char)
    requires i < |s| && s[i] == c
    ensures At(s, i, [c])
  {
    assert s[i..i + 1] == [c];
  }

  /** Reading one byte of a text that stands at `i`. */
  lemma AtByte(s: string, i: nat, text: string, k: nat)
    requires At(s, i, text) && k < |text|
    ensures s[i + k] == text[k]
  {
    assert s[i..i + |text|][k] == s[i + k];
  }

  predicate IsWs(c: char) {
    c == ' ' || c == '\t' || c == '\n' || c == '\r'
  }

  predicate AllWs(s: string) {
    forall k | 0 <= k < |s| :: IsWs(s[k])
  }

  predicate IsDigit(c: char) {
    '0' <= c <= '9'
  }

  predicate AllDigits(s: string) {
    forall k | 0 <= k < |s| :: IsDigit(s[k])
  }

  /** The first position at or after `i` that does not hold white space. */
  function EatWs(s: string, i: nat): (r: nat)
    requires i <= |s|
    ensures i <= r <= |s|
    ensures r == |s| || !IsWs(s[r])
    decreases |s| - i
  {
    if i < |s| && IsWs(s[i]) then EatWs(s, i + 1) else i
  }

  /** What is passed over is white space. */
  lemma {:induction false} EatWsPasses(s: string, i: nat)
    requires i <= |s|
    ensures AllWs(s[i..EatWs(s, i)]) && forall k | i <= k < EatWs(s, i) :: IsWs(s[k])
    decreases |s| - i
  {
    if i < |s| && IsWs(s[i]) {
      EatWsPasses(s, i + 1);
    }
  }

  lemma EatWsOver(s: string, i: nat, ws: string)
    requires At(s, i, ws) && AllWs(ws)
    requires i + |ws| == |s| || !IsWs(s[i + |ws|])
    ensures EatWs(s, i) == i + |ws|
  {
    var r := EatWs(s, i);
    EatWsPasses(s, i);
    if r < i + |ws| {
      AtByte(s, i, ws, r - i);
    }
  }

  /** The first position at or after `i` that does not hold a decimal digit. */
  function DigitsEnd(s: string, i: nat): (r: nat)
    requires i <= |s|
    ensures i <= r <= |s|
    ensures r == |s| || !IsDigit(s[r])
    decreases |s| - i
  {
    if i < |s| && IsDigit(s[i]) then DigitsEnd(s, i + 1) else i
  }

  /** What is passed over is digits. */
  lemma {:induction false} DigitsEndPasses(s: string, i: nat)
    requires i <= |s|
    ensures AllDigits(s[i..DigitsEnd(s, i)]) && forall k | i <= k < DigitsEnd(s, i) :: IsDigit(s[k])
    decreases |s| - i
  {
    if i < |s| && IsDigit(s[i]) {
      DigitsEndPasses(s, i + 1);
    }
  }

  lemma DigitsEndOver(s: string, i: nat, digits: string)
    requires At(s, i, digits) && AllDigits(digits)
    requires i + |digits| == |s| || !IsDigit(s[i + |digits|])
    ensures DigitsEnd(s, i) == i + |digits|
  {
    var r := DigitsEnd(s, i);
    DigitsEndPasses(s, i);
    if r < i + |digits| {
      AtByte(s, i, digits, r - i);
    }
  }

  /** The cursor loop of the scanners: advance past white space. */
  method SkipWs(s: string, i: nat) returns (r: nat)
    requires i <= |s|
    ensures r == EatWs(s, i)
  {
    r := i;
    while r < |s| && IsWs(s[r])
      invariant i <= r <= |s| && EatWs(s, i) == EatWs(s, r)
    {
      r := r + 1;
    }
  }

  lemma SubSlice(a: array<char>, from: nat, to: nat, i: nat, j: nat)
    requires from <= to <= a.Length && i <= j <= to - from
    ensures a[from + i..from + j] == a[from..to][i..j]
  {
    assert forall k | 0 <= k < j - i :: a[from..to][i..j][k] == a[from..to][i + k] == a[from + i + k];
  }

  method CopyBytes(from: array<char>, n: nat, to: array<char>, at: nat)
    requires from != to && n <= from.Length && at + n <= to.Length
    modifies to
    ensures to[at..at + n] == from[..n]
    ensures to[..at] == old(to[..at]) && to[at + n..] == old(to[at + n..])
  {
    CopyText(from[..n], to, at);
  }

  method CopyText(text: string, to: array<char>, at: nat)
    requires at + |text| <= to.Length
    modifies to
    ensures to[at..at + |text|] == text
    ensures to[..at] == old(to[..at]) && to[at + |text|..] == old(to[at + |text|..])
  {
    for k := 0 to |text|
      invariant forall j | 0 <= j < k :: to[at + j] == text[j]
      invariant forall j | 0 <= j < at :: to[j] == old(to[j])
      invariant forall j | at + |text| <= j < to.Length :: to[j] == old(to[j])
    {
      to[at + k] := text[k];
    }
  }

  /** Write a header and the first `n` bytes of `body` behind what stands in `to[from..at]`. */
  method CopyRecord(header: string, body: array<char>, n: nat, to: array<char>, from: nat, at: nat)
    requires body != to && n <= body.Length && from <= at && at + |header| + n <= to.Length
    modifies to
    ensures to[from..at + |header| + n] == old(to[from..at]) + (header + body[..n])
  {
    ghost var before := to[..at];
    CopyText(header, to, at);
    ghost var middle := to[..at + |header|];
    assert middle == before + header;
    CopyBytes(body, n, to, at + |header|);
    ghost var end := at + |header| + n;
    assert to[..end] == middle + body[..n];
    assert to[from..end] == to[..end][from..];
    assert before[from..] == old(to[from..at]);
  }
}
