/** The lenient scanner: first match, containers skipped by counting brackets, numbers taken greedily.

    Its methods are proved against the functions below on every text. The theorem of the module is that
    on a document the strict walk accepts the two agree: the scanner finds a name exactly when it is a
    top-level raw name, with the same extent and kind. */
module JsonLenient {
  import opened Bytes
  import opened JsonGrammar
  import opened JsonParse
  import opened JsonLookup
  import opened JsonChecked

  // ------------------------------------------------------- specification

  /** The closing quote, taking any byte after a backslash for escaped. */
  function QuoteEnd(s: string, k: nat): (r: Option<nat>)
    ensures r.Some? ==> k <= r.value < |s|
    decreases |s| - k
  {
    if k >= |s| then None
    else if s[k] == '\\' then QuoteEnd(s, k + 2)
    else if s[k] == '"' then Some(k)
    else QuoteEnd(s, k + 1)
  }

  predicate IsOpen(c: char) { c == '{' || c == '[' }

  predicate IsClose(c: char) { c == '}' || c == ']' }

  /** Just past the bracket that closes the outermost of `depth` open ones. */
  function BracketEnd(s: string, i: nat, depth: nat): (r: Option<nat>)
    ensures r.Some? ==> i < r.value <= |s|
    decreases |s| - i
  {
    if i >= |s| then None
    else if s[i] == '"' then
      var e := QuoteEnd(s, i + 1);
      if e.None? then None else BracketEnd(s, e.value + 1, depth)
    else if IsOpen(s[i]) then BracketEnd(s, i + 1, depth + 1)
    else if IsClose(s[i]) then
      if depth <= 1 then Some(i + 1) else BracketEnd(s, i + 1, depth - 1)
    else BracketEnd(s, i + 1, depth)
  }

  function NumberEnd(s: string, i: nat): (r: nat)
    requires i <= |s|
    ensures i <= r <= |s|
    decreases |s| - i
  {
    if i < |s| && IsNumberByte(s[i]) then NumberEnd(s, i + 1) else i
  }

  datatype Skipped = Skipped(span: Found, end: nat)

  function SkipSpec(s: string, i: nat): (r: Option<Skipped>)
    requires i <= |s|
    ensures r.Some? ==> i < r.value.end <= |s| && r.value.span.from <= r.value.span.to <= |s|
  {
    if i == |s| then None
    else if s[i] == '"' then
      var e := QuoteEnd(s, i + 1);
      if e.None? then None else Some(Skipped(Found(i + 1, e.value, StringKind), e.value + 1))
    else if IsOpen(s[i]) then
      var e := BracketEnd(s, i, 0);
      if e.None? then None
      else Some(Skipped(Found(i, e.value, if s[i] == '{' then ObjectKind else ArrayKind), e.value))
    else if s[i] == 't' || s[i] == 'f' || s[i] == 'n' then
      if At(s, i, WordFor(s[i])) then
        var e := i + |WordFor(s[i])|;
        Some(Skipped(Found(i, e, if s[i] == 'n' then NullKind else BooleanKind), e))
      else None
    else if s[i] == '-' || IsDigit(s[i]) then
      var e := NumberEnd(s, i + 1);
      Some(Skipped(Found(i, e, NumberKind), e))
    else None
  }

  function EatCommas(s: string, i: nat): (r: nat)
    requires i <= |s|
    ensures i <= r <= |s|
    decreases |s| - i
  {
    if i < |s| && (IsWs(s[i]) || s[i] == ',') then EatCommas(s, i + 1) else i
  }

  /** The first member named `key` from position `i` inside an object. */
  function FindFrom(s: string, i: nat, key: string): (r: Option<Found>)
    requires i <= |s|
    ensures r.Some? ==> r.value.from <= r.value.to <= |s|
    decreases |s| - i
  {
    var k := EatCommas(s, i);
    if k == |s| || s[k] != '"' then None
    else
      var e := QuoteEnd(s, k + 1);
      if e.None? then None
      else
        var colon := EatWs(s, e.value + 1);
        if colon == |s| || s[colon] != ':' then None
        else
          var v := SkipSpec(s, EatWs(s, colon + 1));
          if v.None? then None
          else if s[k + 1..e.value] == key then Some(v.value.span)
          else FindFrom(s, v.value.end, key)
  }

  function FindSpec(s: string, key: string): (r: Option<Found>)
    ensures r.Some? ==> r.value.from <= r.value.to <= |s|
  {
    var i := EatWs(s, 0);
    if i == |s| || s[i] != '{' then None else FindFrom(s, i + 1, key)
  }

  // -------------------------------------------------------------- methods

  method SkipString(s: string, start: nat) returns (ok: bool, i: nat, rawFrom: nat, rawTo: nat)
    requires start < |s|
    ensures ok <==> QuoteEnd(s, start + 1).Some?
    ensures ok ==> rawFrom == start + 1 && rawTo == QuoteEnd(s, start + 1).value && i == rawTo + 1
  {
    i := start + 1;
    rawFrom, rawTo := i, i;
    while i < |s|
      invariant start < i && QuoteEnd(s, start + 1) == QuoteEnd(s, i)
      decreases |s| - i
    {
      var c := s[i];
      if c == '\\' {
        i := i + 2;
        continue;
      }
      if c == '"' {
        rawTo := i;
        return true, i + 1, rawFrom, rawTo;
      }
      i := i + 1;
    }
    return false, i, rawFrom, rawTo;
  }

  method SkipContainer(s: string, start: nat) returns (ok: bool, i: nat)
    requires start < |s| && IsOpen(s[start])
    ensures ok <==> BracketEnd(s, start, 0).Some?
    ensures ok ==> i == BracketEnd(s, start, 0).value
  {
    i := start;
    var depth := 0;
    while i < |s|
      invariant start <= i && 0 <= depth
      invariant depth == 0 ==> i == start
      invariant BracketEnd(s, start, 0) == BracketEnd(s, i, depth)
      decreases |s| - i
    {
      var b := s[i];
      if b == '"' {
        var good, from, to;
        good, i, from, to := SkipString(s, i);
        if !good {
          return false, i;
        }
        continue;
      }
      if IsOpen(b) {
        depth := depth + 1;
      } else if IsClose(b) {
        depth := depth - 1;
        if depth == 0 {
          return true, i + 1;
        }
      }
      i := i + 1;
    }
    return false, i;
  }

  method SkipNumber(s: string, start: nat) returns (i: nat)
    requires start < |s|
    ensures i == NumberEnd(s, start + 1)
  {
    i := start + 1;
    while i < |s|
      invariant start < i <= |s| && NumberEnd(s, start + 1) == NumberEnd(s, i)
    {
      if !IsNumberByte(s[i]) {
        break;
      }
      i := i + 1;
    }
  }

  method SkipValue(s: string, start: nat) returns (r: Option<Skipped>)
    requires start <= |s|
    ensures r == SkipSpec(s, start)
  {
    if start >= |s| {
      return None;
    }
    var c := s[start];
    if c == '"' {
      var ok, i, from, to := SkipString(s, start);
      return if ok then Some(Skipped(Found(from, to, StringKind), i)) else None;
    }
    if c == '{' || c == '[' {
      var ok, i := SkipContainer(s, start);
      return if ok then Some(Skipped(Found(start, i, if c == '{' then ObjectKind else ArrayKind), i)) else None;
    }
    if c == 't' || c == 'f' || c == 'n' {
      var ok, i, kind := SkipKeyword(s, start);
      return if ok then Some(Skipped(Found(start, i, kind), i)) else None;
    }
    if c == '-' || IsDigit(c) {
      var i := SkipNumber(s, start);
      return Some(Skipped(Found(start, i, NumberKind), i));
    }
    return None;
  }

  /** `FindFrom`, one member further. */
  lemma FindStep(s: string, i: nat, key: string)
    requires i <= |s|
    ensures
      var k := EatCommas(s, i);
      if k == |s| || s[k] != '"' || QuoteEnd(s, k + 1).None? then FindFrom(s, i, key) == None
      else
        var e := QuoteEnd(s, k + 1).value;
        var colon := EatWs(s, e + 1);
        if colon == |s| || s[colon] != ':' || SkipSpec(s, EatWs(s, colon + 1)).None? then FindFrom(s, i, key) == None
        else
          var v := SkipSpec(s, EatWs(s, colon + 1)).value;
          FindFrom(s, i, key) == if s[k + 1..e] == key then Some(v.span) else FindFrom(s, v.end, key)
  {
    hide QuoteEnd, SkipSpec, EatWs, AllWs, EatCommas;
  }

  method FindMember(s: string, key: string) returns (r: Option<Found>)
    ensures r == FindSpec(s, key)
  {
    hide QuoteEnd, SkipSpec, EatWs, AllWs, FindFrom;
    var i := SkipWs(s, 0);
    if i >= |s| || s[i] != '{' {
      return None;
    }
    i := i + 1;
    ghost var open := i;
    while i < |s|
      invariant open <= i <= |s| && FindFrom(s, open, key) == FindFrom(s, i, key)
      decreases |s| - i
    {
      ghost var member := i;
      FindStep(s, i, key);
      while i < |s| && (IsWs(s[i]) || s[i] == ',')
        invariant member <= i <= |s| && EatCommas(s, member) == EatCommas(s, i)
      {
        i := i + 1;
      }
      if i < |s| && s[i] == '}' {
        return None;
      }
      if i >= |s| || s[i] != '"' {
        return None;
      }
      var ok, next, from, to := SkipString(s, i);
      if !ok {
        return None;
      }
      i := SkipWs(s, next);
      if i >= |s| || s[i] != ':' {
        return None;
      }
      i := SkipWs(s, i + 1);
      var v := SkipValue(s, i);
      if v.None? {
        return None;
      }
      if s[from..to] == key {
        return Some(v.value.span);
      }
      i := v.value.end;
    }
    FindStep(s, i, key);
    return None;
  }

  // ------------------------------------------- agreement with the strict walk

  lemma {:induction false} QuoteAgrees(s: string, k: nat, unicode: bool)
    requires k <= |s| && BodyEnd(s, k, unicode).Some?
    ensures QuoteEnd(s, k) == BodyEnd(s, k, unicode)
    decreases |s| - k
  {
    if s[k] == '"' {
    } else if s[k] != '\\' {
      QuoteAgrees(s, k + 1, unicode);
    } else if IsShortEscape(s[k + 1]) {
      QuoteAgrees(s, k + 2, unicode);
    } else {
      QuoteAgrees(s, k + 6, unicode);
      QuoteSkipsHex(s, k + 2);
    }
  }

  lemma QuoteSkipsHex(s: string, k: nat)
    requires k + 4 <= |s| && IsHex(s[k]) && IsHex(s[k + 1]) && IsHex(s[k + 2]) && IsHex(s[k + 3])
    ensures QuoteEnd(s, k) == QuoteEnd(s, k + 4)
  {
    assert QuoteEnd(s, k) == QuoteEnd(s, k + 1);
    assert QuoteEnd(s, k + 1) == QuoteEnd(s, k + 2);
    assert QuoteEnd(s, k + 2) == QuoteEnd(s, k + 3);
  }

  lemma {:induction false} NumberBytesSkipped(s: string, i: nat, end: nat)
    requires i <= end <= |s| && NumberStops(s, end)
    requires forall k | i <= k < end :: IsNumberByte(s[k])
    ensures NumberEnd(s, i) == end
    decreases end - i
  {
    if i < end {
      NumberBytesSkipped(s, i + 1, end);
    }
  }

  /** Bytes that are neither quotes nor brackets do not change the depth. */
  lemma {:induction false} PlainSkipped(s: string, i: nat, end: nat, depth: nat)
    requires i <= end <= |s|
    requires forall k | i <= k < end :: s[k] != '"' && !IsOpen(s[k]) && !IsClose(s[k])
    ensures BracketEnd(s, i, depth) == BracketEnd(s, end, depth)
    decreases end - i
  {
    if i < end {
      PlainSkipped(s, i + 1, end, depth);
    }
  }

  lemma NumberIsNumberBytes(s: string, i: nat)
    requires i <= |s| && ParseNumber(s, i).Done?
    ensures forall k | i <= k < ParseNumber(s, i).end :: IsNumberByte(s[k])
  {
    hide AllDigits, DigitsEnd, FractionEnd, ExponentEnd;
    var w := if s[i] == '-' then i + 1 else i;
    var f := DigitsEnd(s, w);
    DigitsEndPasses(s, w);
    FractionBytes(s, f);
    ExponentBytes(s, FractionEnd(s, f).value);
  }

  lemma FractionBytes(s: string, i: nat)
    requires i <= |s| && FractionEnd(s, i).Some?
    ensures forall k | i <= k < FractionEnd(s, i).value :: IsNumberByte(s[k])
  {
    hide DigitsEnd, AllDigits;
    if i < |s| {
      DigitsEndPasses(s, i + 1);
    }
  }

  lemma ExponentBytes(s: string, i: nat)
    requires i <= |s| && ExponentEnd(s, i).Some?
    ensures forall k | i <= k < ExponentEnd(s, i).value :: IsNumberByte(s[k])
  {
    hide DigitsEnd, AllDigits;
    if i < ExponentEnd(s, i).value {
      DigitsEndPasses(s, if i + 1 < |s| && IsSign(s[i + 1]) then i + 2 else i + 1);
    }
  }

  lemma WordIsPlain(s: string, i: nat)
    requires i < |s| && (s[i] == 't' || s[i] == 'f' || s[i] == 'n') && At(s, i, WordFor(s[i]))
    ensures forall k | i <= k < i + |WordFor(s[i])| :: s[k] != '"' && !IsOpen(s[k]) && !IsClose(s[k])
  {
    var w := WordFor(s[i]);
    forall k | i <= k < i + |w| ensures s[k] != '"' && !IsOpen(s[k]) && !IsClose(s[k]) {
      AtByte(s, i, w, k - i);
    }
  }

  /** Counting brackets passes over a value with the depth it came with. */
  lemma {:induction false} ValuePassed(s: string, i: nat, depth: nat)
    requires i <= |s| && ParseValue(s, i).Done?
    ensures var end := ParseValue(s, i).end;
      && (depth > 0 ==> BracketEnd(s, i, depth) == BracketEnd(s, end, depth))
      && (depth == 0 && IsOpen(s[i]) ==> BracketEnd(s, i, 0) == Some(end))
    decreases |s| - i, 1
  {
    hide ParseItems, ParseNumber, BodyEnd, At;
    if s[i] == '"' {
      QuoteAgrees(s, i + 1, true);
    } else if IsOpen(s[i]) {
      ItemsPassed(s, i + 1, s[i] == '{', true, depth + 1);
    } else if s[i] == 't' || s[i] == 'f' || s[i] == 'n' {
      WordIsPlain(s, i);
      PlainSkipped(s, i, ParseValue(s, i).end, depth);
    } else {
      NumberIsNumberBytes(s, i);
      PlainSkipped(s, i, ParseValue(s, i).end, depth);
    }
  }

  lemma QuoteJumped(s: string, k: nat, depth: nat)
    requires k < |s| && s[k] == '"' && QuoteEnd(s, k + 1).Some?
    ensures BracketEnd(s, k, depth) == BracketEnd(s, QuoteEnd(s, k + 1).value + 1, depth)
  {
    hide QuoteEnd;
  }

  lemma ColonJumped(s: string, k: nat, depth: nat)
    requires k < |s| && s[k] == ':'
    ensures BracketEnd(s, k, depth) == BracketEnd(s, k + 1, depth)
  {
  }

  /** The places that reading a name goes through. */
  lemma NameSteps(s: string, k: nat)
    requires k <= |s| && ParseName(s, k, true).Done?
    ensures k < |s| && s[k] == '"' && BodyEnd(s, k + 1, false).Some?
    ensures
      var e := BodyEnd(s, k + 1, false).value;
      var colon := EatWs(s, e + 1);
      && e < |s| && colon < |s| && s[colon] == ':' && ParseName(s, k, true).end == EatWs(s, colon + 1)
  {
    hide BodyEnd, EatWs;
  }

  lemma {:induction false} NamePassed(s: string, k: nat, isObject: bool, depth: nat)
    requires k <= |s| && ParseName(s, k, isObject).Done?
    ensures BracketEnd(s, k, depth) == BracketEnd(s, ParseName(s, k, isObject).end, depth)
  {
    hide BracketEnd;
    if isObject {
      MemberNamePassed(s, k, depth);
    }
  }

  lemma {:induction false} MemberNamePassed(s: string, k: nat, depth: nat)
    requires k <= |s| && ParseName(s, k, true).Done?
    ensures BracketEnd(s, k, depth) == BracketEnd(s, ParseName(s, k, true).end, depth)
  {
    hide *;
    NameSteps(s, k);
    QuoteAgrees(s, k + 1, false);
    QuoteJumped(s, k, depth);
    var e := BodyEnd(s, k + 1, false).value;
    var colon := EatWs(s, e + 1);
    WsJumped(s, e + 1, depth);
    ColonJumped(s, colon, depth);
    WsJumped(s, colon + 1, depth);
  }

  lemma WsJumped(s: string, c: nat, depth: nat)
    requires c <= |s|
    ensures BracketEnd(s, c, depth) == BracketEnd(s, EatWs(s, c), depth)
  {
    hide BracketEnd;
    EatWsPasses(s, c);
    PlainSkipped(s, c, EatWs(s, c), depth);
  }

  lemma {:induction false} ItemPassed(s: string, c: nat, isObject: bool, depth: nat)
    requires c <= |s| && ParseItem(s, c, isObject).Done? && depth > 0
    ensures BracketEnd(s, c, depth) == BracketEnd(s, ParseItem(s, c, isObject).end, depth)
    decreases |s| - c, 2
  {
    hide ParseName, ParseValue, EatWs, AllWs, BracketEnd;
    var k := EatWs(s, c);
    WsJumped(s, c, depth);
    NamePassed(s, k, isObject, depth);
    var v := ParseName(s, k, isObject).end;
    ValuePassed(s, v, depth);
    WsJumped(s, ParseValue(s, v).end, depth);
  }

  lemma {:induction false} ItemsPassed(s: string, c: nat, isObject: bool, first: bool, depth: nat)
    requires c <= |s| && ParseItems(s, c, isObject, first).Done? && depth > 0
    ensures var end := ParseItems(s, c, isObject, first).end;
      BracketEnd(s, c, depth) == if depth == 1 then Some(end) else BracketEnd(s, end, depth - 1)
    decreases |s| - c, 3
  {
    hide ParseItem, EatWs, AllWs;
    var k := EatWs(s, c);
    if first && k < |s| && s[k] == Close(isObject) {
      WsJumped(s, c, depth);
    } else {
      ItemPassed(s, c, isObject, depth);
      var e := ParseItem(s, c, isObject).end;
      if s[e] == ',' {
        ItemsPassed(s, e + 1, isObject, false, depth);
      }
    }
  }

  /** On a value that the grammar accepts and that is not cut short, the skips are the same. */
  lemma SkipAgrees(s: string, i: nat)
    requires i <= |s| && ParseValue(s, i).Done?
    requires NumberStops(s, ParseValue(s, i).end)
    ensures
      var v := ParseValue(s, i);
      SkipSpec(s, i) == Some(Skipped(Extent(v.tree, i, v.end), v.end))
  {
    hide ParseItems, ParseNumber, BodyEnd, At, BracketEnd, QuoteEnd, NumberEnd;
    if s[i] == '"' {
      QuoteAgrees(s, i + 1, true);
    } else if IsOpen(s[i]) {
      ValuePassed(s, i, 0);
    } else if s[i] == '-' || IsDigit(s[i]) {
      NumberIsNumberBytes(s, i);
      NumberBytesSkipped(s, i + 1, ParseValue(s, i).end);
    }
  }

  lemma {:induction false} CommasEaten(s: string, i: nat, k: nat)
    requires i <= k <= |s| && (k == |s| || (!IsWs(s[k]) && s[k] != ','))
    requires forall j | i <= j < k :: IsWs(s[j]) || s[j] == ','
    ensures EatCommas(s, i) == k
    decreases k - i
  {
    if i < k {
      CommasEaten(s, i + 1, k);
    }
  }

  /** `FindFrom` may start anywhere in the white space and commas before a member. */
  lemma FindSkips(s: string, i: nat, j: nat, key: string)
    requires i <= |s| && j <= |s| && EatCommas(s, i) == EatCommas(s, j)
    ensures FindFrom(s, i, key) == FindFrom(s, j, key)
  {
    hide *;
    FindStep(s, i, key);
    FindStep(s, j, key);
  }

  /** Reading one member of an accepted object: the search ends here or goes on after the value. */
  lemma FindReads(s: string, c: nat, key: string)
    requires c <= |s| && ParseItem(s, c, true).Done?
    requires EatCommas(s, c) == EatWs(s, c) && NumberStops(s, ValueEndsAt(s, c))
    ensures FindFrom(s, c, key) ==
      var item := ParseItem(s, c, true).tree;
      if NameOf(item) == [key] then Some(Extent(item.value, ValueStartsAt(s, c), ValueEndsAt(s, c)))
      else FindFrom(s, ValueEndsAt(s, c), key)
  {
    hide *;
    MemberSteps(s, c);
    QuoteAgrees(s, EatWs(s, c) + 1, false);
    SkipAgrees(s, ValueStartsAt(s, c));
    FindStep(s, c, key);
  }

  /** Reading a well-formed list: what `LookupFrom` and `ParseItems` do with one item. */
  lemma ItemsOn(s: string, c: nat, first: bool, key: string)
    requires c <= |s| && ParseItems(s, c, true, first).Done?
    ensures
      var k := EatWs(s, c);
      var item := ParseItem(s, c, true);
      if first && k < |s| && s[k] == '}' then LookupFrom(s, c, first, key) == None
      else
        && item.Done? && c < item.end < |s| && (s[item.end] == '}' || s[item.end] == ',')
        && (s[item.end] == ',' ==> ParseItems(s, item.end + 1, true, false).Done?)
        && LookupFrom(s, c, first, key) ==
             if NameOf(item.tree) == [key] then
               Some(Extent(item.tree.value, ValueStartsAt(s, c), ValueEndsAt(s, c)))
             else if s[item.end] == ',' then LookupFrom(s, item.end + 1, false, key)
             else None
  {
    CloseStops(true);
    hide ParseItem, EatWs, AllWs, Extent, ValueStartsAt, ValueEndsAt, NameOf;
  }

  lemma {:induction false} FindAgrees(s: string, c: nat, first: bool, key: string)
    requires c <= |s| && ParseItems(s, c, true, first).Done?
    ensures FindFrom(s, c, key) == LookupFrom(s, c, first, key)
    decreases |s| - c
  {
    hide *;
    var k := EatWs(s, c);
    ItemsOn(s, c, first, key);
    if first && k < |s| && s[k] == '}' {
      ClosePassed(s, c);
      FindStops(s, c, key);
    } else {
      var item := ParseItem(s, c, true);
      var w := ValueEndsAt(s, c);
      QuotePassed(s, c);
      MemberEnd(s, c);
      ValueIsNotCutShort(s, w);
      FindReads(s, c, key);
      if s[item.end] == ',' {
        FindAgrees(s, item.end + 1, false, key);
        EatWsPasses(s, w);
        CommaSkipped(s, w, item.end);
        FindSkips(s, w, item.end + 1, key);
      } else {
        ClosePassed(s, w);
        FindStops(s, w, key);
      }
    }
  }

  lemma ClosePassed(s: string, c: nat)
    requires c <= |s| && EatWs(s, c) < |s| && s[EatWs(s, c)] == '}'
    ensures EatCommas(s, c) == EatWs(s, c)
  {
    EatWsPasses(s, c);
    hide EatCommas, EatWs;
    CommasEaten(s, c, EatWs(s, c));
  }

  lemma QuotePassed(s: string, c: nat)
    requires c <= |s| && ParseItem(s, c, true).Done?
    ensures EatCommas(s, c) == EatWs(s, c)
  {
    StartsWithQuote(s, c);
    EatWsPasses(s, c);
    hide EatCommas, EatWs, ParseItem;
    CommasEaten(s, c, EatWs(s, c));
  }

  lemma FindStops(s: string, i: nat, key: string)
    requires i <= |s| && EatCommas(s, i) < |s| && s[EatCommas(s, i)] == '}'
    ensures FindFrom(s, i, key) == None
  {
  }

  lemma StartsWithQuote(s: string, c: nat)
    requires c <= |s| && ParseItem(s, c, true).Done?
    ensures var k := EatWs(s, c); k < |s| && s[k] == '"' && !IsWs(s[k]) && s[k] != ','
  {
    hide EatWs, AllWs, ParseValue;
  }

  /** On every well-formed document the scanner finds exactly the members. */
  lemma DocumentFound(s: string, key: string)
    requires ParseDocument(s).Done?
    ensures FindSpec(s, key) == LookupFrom(s, EatWs(s, 0) + 1, true, key)
    ensures
      var m := MemberOf(ParseDocument(s).tree.items, key);
      var f := FindSpec(s, key);
      && (f.Some? <==> m.Some?)
      && (m.Some? ==> f.value.kind == KindOf(m.value) && s[f.value.from..f.value.to] == Shown(m.value))
  {
    hide EatWs, AllWs, ParseItems, FindFrom, LookupFrom, MemberOf, Shown, KindOf;
    FindAgrees(s, EatWs(s, 0) + 1, true, key);
    LookupFinds(s, EatWs(s, 0) + 1, true, key);
  }

  /** Whenever the strict walk does not refuse a document, whatever member it was asked for, the scanner
      finds a name exactly when it is a top-level raw name, at the extent and with the kind of the only
      member of that name. */
  lemma LenientAgrees(s: string, key: string, sought: string)
    requires CheckedFind(s, sought) != Invalid
    ensures ParseDocument(s).Done?
    ensures
      var items := ParseDocument(s).tree.items;
      var f := FindSpec(s, key);
      && NoRepeats(Names(items))
      && f == LookupFrom(s, EatWs(s, 0) + 1, true, key)
      && (f.Some? <==> key in Names(items))
      && (f.Some? <==> MemberOf(items, key).Some?)
      && (f.Some? ==>
            f.value.kind == KindOf(MemberOf(items, key).value)
            && s[f.value.from..f.value.to] == Shown(MemberOf(items, key).value))
  {
    hide EatWs, AllWs, ParseItems, FindFrom, LookupFrom, MemberOf, Shown, KindOf, Names;
    DocumentFound(s, key);
    MemberIsNamed(ParseDocument(s).tree.items, key);
  }

  lemma {:induction false} MemberIsNamed(items: Items, key: string)
    ensures MemberOf(items, key).Some? <==> key in Names(items)
  {
    if items.More? {
      MemberIsNamed(items.rest, key);
    }
  }

  lemma ValueIsNotCutShort(s: string, w: nat)
    requires w <= |s| && EatWs(s, w) < |s| && (s[EatWs(s, w)] == ',' || s[EatWs(s, w)] == '}')
    ensures NumberStops(s, w)
  {
  }

  lemma CommaSkipped(s: string, w: nat, comma: nat)
    requires w <= comma < |s| && s[comma] == ',' && forall j | w <= j < comma :: IsWs(s[j])
    ensures EatCommas(s, w) == EatCommas(s, comma + 1)
    decreases comma - w
  {
    if w < comma {
      CommaSkipped(s, w + 1, comma);
    }
  }
}
