/** The strict walk: a recursive descent that refuses bad grammar, deep nesting and repeated names.

    Each method is proved to accept exactly what the functional reader accepts with a tree that is not
    too high and, when duplicates are checked, repeats no name. The duplicate check restarts at the
    object's opening bracket; that the recursion still ends is the measure on the methods: a walk that
    checks duplicates may start one that does not, and otherwise the cursor advances. */
module JsonChecked {
  import opened Bytes
  import opened JsonGrammar
  import opened JsonParse
  import opened JsonLookup

  const MAX_CHECKED_JSON_DEPTH := 16

  datatype MemberResult = Member(from: nat, to: nat) | Missing | Invalid

  /** Whether a value that the grammar accepts is also acceptable to a walk. */
  predicate Admits(v: Value, room: nat, checkDuplicates: bool) {
    Height(v) <= room && (checkDuplicates ==> Distinct(v))
  }

  predicate ItemsAdmit(items: Items, room: nat, checkDuplicates: bool) {
    ItemsHeight(items) <= room && (checkDuplicates ==> NoRepeats(Names(items)) && DistinctBelow(items))
  }

  // ------------------------------------------------------------- tokens

  method SkipCheckedString(s: string, i: nat, allowUnicodeEscape: bool)
    returns (ok: bool, end: nat, rawFrom: nat, rawTo: nat)
    requires i <= |s|
    ensures ok <==> i < |s| && s[i] == '"' && BodyEnd(s, i + 1, allowUnicodeEscape).Some?
    ensures ok ==> rawFrom == i + 1 && rawTo == BodyEnd(s, i + 1, allowUnicodeEscape).value && end == rawTo + 1
  {
    end, rawFrom, rawTo := i, i, i;
    if i >= |s| || s[i] != '"' {
      return false, end, rawFrom, rawTo;
    }
    end := end + 1;
    rawFrom := end;
    while end < |s|
      invariant i < end <= |s|
      invariant BodyEnd(s, i + 1, allowUnicodeEscape) == BodyEnd(s, end, allowUnicodeEscape)
    {
      var c := s[end];
      if IsControl(c) {
        return false, end, rawFrom, rawTo;
      }
      if c == '"' {
        rawTo := end;
        return true, end + 1, rawFrom, rawTo;
      }
      if c != '\\' {
        end := end + 1;
        continue;
      }
      if end + 1 >= |s| {
        return false, end, rawFrom, rawTo;
      }
      var escape := s[end + 1];
      if IsShortEscape(escape) {
        end := end + 2;
        continue;
      }
      if escape != 'u' || !allowUnicodeEscape || end + 5 >= |s| {
        return false, end, rawFrom, rawTo;
      }
      for digit := end + 2 to end + 6
        invariant forall k | end + 2 <= k < digit :: IsHex(s[k])
      {
        if !IsHex(s[digit]) {
          return false, end, rawFrom, rawTo;
        }
      }
      end := end + 6;
    }
    return false, end, rawFrom, rawTo;
  }

  method SkipDigits(s: string, i: nat) returns (r: nat)
    requires i <= |s|
    ensures r == DigitsEnd(s, i)
  {
    r := i;
    while r < |s| && IsDigit(s[r])
      invariant i <= r <= |s| && DigitsEnd(s, i) == DigitsEnd(s, r)
    {
      r := r + 1;
    }
  }

  /** The three clauses of the number grammar, one after another. */
  method SkipCheckedNumber(s: string, start: nat) returns (ok: bool, i: nat)
    requires start <= |s|
    ensures ok <==> ParseNumber(s, start).Done?
    ensures ok ==> i == ParseNumber(s, start).end
  {
    hide FractionEnd, ExponentEnd, DigitsEnd, AllDigits;
    i := start;
    if i < |s| && s[i] == '-' {
      i := i + 1;
    }
    ok, i := SkipWhole(s, i);
    if ok {
      ok, i := SkipFraction(s, i);
    }
    if ok {
      ok, i := SkipExponent(s, i);
    }
  }

  method SkipWhole(s: string, w: nat) returns (ok: bool, i: nat)
    requires w <= |s|
    ensures ok <==> DigitsEnd(s, w) != w && (s[w] == '0' ==> DigitsEnd(s, w) == w + 1)
    ensures i <= |s| && (ok ==> i == DigitsEnd(s, w))
  {
    i := w;
    if i >= |s| {
      return false, i;
    }
    if s[i] == '0' {
      i := i + 1;
      if i < |s| && IsDigit(s[i]) {
        return false, i;
      }
    } else {
      if s[i] < '1' || s[i] > '9' {
        return false, i;
      }
      i := SkipDigits(s, i);
    }
    return true, i;
  }

  method SkipFraction(s: string, f: nat) returns (ok: bool, i: nat)
    requires f <= |s|
    ensures ok <==> FractionEnd(s, f).Some?
    ensures i <= |s| && (ok ==> i == FractionEnd(s, f).value)
  {
    i := f;
    if i < |s| && s[i] == '.' {
      i := i + 1;
      if i >= |s| || !IsDigit(s[i]) {
        return false, i;
      }
      i := SkipDigits(s, i);
    }
    return true, i;
  }

  method SkipExponent(s: string, x: nat) returns (ok: bool, i: nat)
    requires x <= |s|
    ensures ok <==> ExponentEnd(s, x).Some?
    ensures i <= |s| && (ok ==> i == ExponentEnd(s, x).value)
  {
    i := x;
    if i < |s| && (s[i] == 'e' || s[i] == 'E') {
      i := i + 1;
      if i < |s| && IsSign(s[i]) {
        i := i + 1;
      }
      if i >= |s| || !IsDigit(s[i]) {
        return false, i;
      }
      i := SkipDigits(s, i);
    }
    return true, i;
  }

  method SkipKeyword(s: string, i: nat) returns (ok: bool, end: nat, kind: Kind)
    requires i < |s|
    ensures ok <==> At(s, i, WordFor(s[i]))
    ensures ok ==> end == i + |WordFor(s[i])| && (kind == if s[i] == 'n' then NullKind else BooleanKind)
  {
    var word := WordFor(s[i]);
    kind := if s[i] == 'n' then NullKind else BooleanKind;
    var stop := if i + |word| <= |s| then i + |word| else |s|;
    if s[i..stop] != word {
      return false, i, kind;
    }
    return true, stop, kind;
  }

  // -------------------------------------------- the prefix already walked

  /** The items named `names`, each followed by a ',', lead from `c` to a member that starts at `before`. */
  predicate Walked(s: string, c: nat, before: nat, names: seq<string>, room: nat)
    decreases |names|
  {
    && c <= |s|
    && if names == [] then EatWs(s, c) == before
       else
         var item := ParseItem(s, c, true);
         && item.Done? && NameOf(item.tree) == [names[0]] && Admits(item.tree.value, room, false)
         && item.end < before && item.end < |s| && s[item.end] == ','
         && Walked(s, item.end + 1, before, names[1..], room)
  }

  lemma {:induction false} WalkedOn(s: string, c: nat, before: nat, names: seq<string>, room: nat, last: nat, next: nat)
    requires Walked(s, c, before, names, room)
    requires last <= |s| && before == EatWs(s, last) && ParseItem(s, last, true).Done?
    requires var item := ParseItem(s, last, true);
      && item.tree.name.Named? && Admits(item.tree.value, room, false)
      && item.end < |s| && s[item.end] == ',' && next == EatWs(s, item.end + 1)
    ensures Walked(s, c, next, names + NameOf(ParseItem(s, last, true).tree), room)
    decreases |names|
  {
    hide ParseItem, Admits, EatWs, AllWs;
    var item := ParseItem(s, c, true);
    var name := ParseItem(s, last, true).tree.name.key;
    if names == [] {
      SameItem(s, c, last);
      assert (names + [name])[1..] == [];
    } else {
      WalkedOn(s, item.end + 1, before, names[1..], room, last, next);
      assert (names + [name])[1..] == names[1..] + [name];
    }
  }

  /** Only the leading white space of an item depends on where it starts. */
  lemma SameItem(s: string, c: nat, d: nat)
    requires c <= |s| && d <= |s| && EatWs(s, c) == EatWs(s, d)
    ensures var a := ParseItem(s, c, true); var b := ParseItem(s, d, true);
      && (a.Done? <==> b.Done?)
      && (a.Done? ==> a.end == b.end && a.tree.name == b.tree.name && a.tree.value == b.tree.value)
  {
    hide ParseName, ParseValue, AllWs;
  }

  // ----------------------------------------------- the recursive descent

  /** Where a loop over members stands: `names` were walked and the rest is still to be read from `c`.
      Every verdict about the whole list is the same verdict about the rest. */
  ghost predicate Midway(s: string, open: nat, c: nat, first: bool, names: seq<string>, room: nat, dup: bool,
                         isObject: bool)
  {
    && open < |s| && open < c <= |s|
    && var whole := ParseItems(s, open + 1, isObject, true);
       var rest := ParseItems(s, c, isObject, first);
       && (whole.Done? <==> rest.Done?)
       && (whole.Done? ==>
             && whole.end == rest.end
             && Names(whole.tree) == names + Names(rest.tree)
             && (ItemsHeight(whole.tree) <= room <==> ItemsHeight(rest.tree) <= room)
             && (dup ==> (DistinctBelow(whole.tree) <==> DistinctBelow(rest.tree))))
  }

  /** The verdict of a walk over a whole list of items. */
  predicate ListAdmitted(s: string, open: nat, isObject: bool, room: nat, dup: bool)
    requires open < |s|
  {
    && ParseItems(s, open + 1, isObject, true).Done?
    && ItemsAdmit(ParseItems(s, open + 1, isObject, true).tree, room, dup)
  }

  function ListEnd(s: string, open: nat, isObject: bool): nat
    requires open < |s| && ParseItems(s, open + 1, isObject, true).Done?
  {
    ParseItems(s, open + 1, isObject, true).end
  }

  /** One more item that cannot be admitted settles the verdict on the whole list. */
  lemma Refuses(s: string, open: nat, c: nat, first: bool, names: seq<string>, room: nat, dup: bool, isObject: bool)
    requires Midway(s, open, c, first, names, room, dup, isObject)
    requires var k := EatWs(s, c); !(first && k < |s| && s[k] == Close(isObject))
    requires
      var item := ParseItem(s, c, isObject);
      || item.Fail? || item.end == |s| || (s[item.end] != Close(isObject) && s[item.end] != ',')
      || !Admits(item.tree.value, room, dup)
      || (dup && item.tree.name.Named? && item.tree.name.key in names)
    ensures !ListAdmitted(s, open, isObject, room, dup)
  {
    hide ParseItem, Height, Distinct, EatWs, AllWs, NoRepeats;
    var item := ParseItem(s, c, isObject);
    var rest := ParseItems(s, c, isObject, first);
    if rest.Done? && item.tree.name.Named? && item.tree.name.key in names {
      RepeatsStay(names, Names(rest.tree), item.tree.name.key);
    }
  }

  /** One more item followed by the closing bracket completes the list. */
  lemma Closes(s: string, open: nat, c: nat, first: bool, names: seq<string>, room: nat, dup: bool, isObject: bool)
    requires Midway(s, open, c, first, names, room, dup, isObject)
    requires var k := EatWs(s, c); !(first && k < |s| && s[k] == Close(isObject))
    requires
      var item := ParseItem(s, c, isObject);
      && item.Done? && item.end < |s| && s[item.end] == Close(isObject)
      && Admits(item.tree.value, room, dup) && (dup ==> NoRepeats(names + NameOf(item.tree)))
    ensures ListAdmitted(s, open, isObject, room, dup)
    ensures ListEnd(s, open, isObject) == ParseItem(s, c, isObject).end + 1
  {
    hide ParseItem, Height, Distinct, EatWs, AllWs, NoRepeats;
  }

  /** One more item followed by a ',' leaves the verdict to the rest. */
  lemma Continues(s: string, open: nat, c: nat, first: bool, names: seq<string>, room: nat, dup: bool, isObject: bool)
    requires Midway(s, open, c, first, names, room, dup, isObject)
    requires var k := EatWs(s, c); !(first && k < |s| && s[k] == Close(isObject))
    requires
      var item := ParseItem(s, c, isObject);
      item.Done? && item.end < |s| && s[item.end] == ',' && Admits(item.tree.value, room, dup)
    ensures
      var item := ParseItem(s, c, isObject);
      Midway(s, open, item.end + 1, false, names + NameOf(item.tree), room, dup, isObject)
  {
    hide ParseItem, Height, Distinct, EatWs, AllWs, NoRepeats;
    var item := ParseItem(s, c, isObject);
    var rest := ParseItems(s, c, isObject, first);
    if rest.Done? {
      assert names + Names(rest.tree) == names + NameOf(item.tree) + Names(rest.tree.rest);
    }
  }

  /** The cursor positions that reading a member goes through. */
  lemma MemberSteps(s: string, c: nat)
    requires c <= |s|
    ensures
      var item := ParseItem(s, c, true);
      var k := EatWs(s, c);
      if k == |s| || s[k] != '"' || BodyEnd(s, k + 1, false).None? then item.Fail?
      else
        var e := BodyEnd(s, k + 1, false).value;
        var colon := EatWs(s, e + 1);
        if colon == |s| || s[colon] != ':' then item.Fail?
        else
          var v := EatWs(s, colon + 1);
          if ParseValue(s, v).Fail? then item.Fail?
          else
            && item.Done? && item.end == EatWs(s, ParseValue(s, v).end)
            && ValueStartsAt(s, c) == v && ValueEndsAt(s, c) == ParseValue(s, v).end
            && item.tree.value == ParseValue(s, v).tree
            && item.tree.name.Named? && NameOf(item.tree) == [s[k + 1..e]] && item.tree.name.key == s[k + 1..e]
  {
    hide EatWs, AllWs, ParseValue, BodyEnd;
  }

  lemma NoItemAtClose(s: string, c: nat, isObject: bool)
    requires c <= |s|
    ensures var k := EatWs(s, c); k == |s| || s[k] == Close(isObject) ==> ParseItem(s, c, isObject).Fail?
    ensures var item := ParseItem(s, c, isObject); !isObject && item.Done? ==> NameOf(item.tree) == []
  {
    hide EatWs, AllWs, ParseItems, ParseNumber, BodyEnd;
  }

  lemma NoNameNoItem(s: string, c: nat)
    requires c <= |s| && EatWs(s, c) < |s| && s[EatWs(s, c)] != '"'
    ensures ParseItem(s, c, true).Fail?
  {
    hide EatWs, AllWs, ParseValue;
  }

  lemma TrailingComma(s: string, open: nat, c: nat, names: seq<string>, room: nat, dup: bool, isObject: bool)
    requires c <= |s| && Midway(s, open, c, false, names, room, dup, isObject)
    requires dup ==> NoRepeats(names)
    ensures var k := EatWs(s, c); k == |s| || s[k] == Close(isObject) ==> !ListAdmitted(s, open, isObject, room, dup)
  {
    hide EatWs, AllWs, ParseItem, ListAdmitted, Midway, NoRepeats, Close;
    NoItemAtClose(s, c, isObject);
    if ParseItem(s, c, isObject).Fail? {
      Refuses(s, open, c, false, names, room, dup, isObject);
    }
  }

  /** Where a loop over the members of an object stands, with its cursor at the next name. */
  ghost predicate Standing(s: string, open: nat, c: nat, first: bool, names: seq<string>, i: nat, room: nat,
                           dup: bool)
  {
    && open < c <= i <= |s| && i == EatWs(s, c) && !(i < |s| && s[i] == '}' && first)
    && Walked(s, open + 1, i, names, room)
    && Midway(s, open, c, first, names, room, dup, true)
    && (dup ==> NoRepeats(names))
    && (i == |s| ==> !ListAdmitted(s, open, true, room, dup))
  }

  /** The member at `c` is admitted after those with the names `names`. */
  predicate MemberAdmitted(s: string, c: nat, names: seq<string>, room: nat, dup: bool)
    requires c <= |s|
  {
    var item := ParseItem(s, c, true);
    && item.Done? && Admits(item.tree.value, room, dup)
    && (dup ==> !(item.tree.name.Named? && item.tree.name.key in names))
  }

  lemma StandingIs(s: string, open: nat, c: nat, first: bool, names: seq<string>, i: nat, room: nat, dup: bool)
    requires Standing(s, open, c, first, names, i, room, dup)
    ensures open < c <= i <= |s| && i == EatWs(s, c) && !(i < |s| && s[i] == '}' && first)
    ensures Walked(s, open + 1, i, names, room)
    ensures i == |s| ==> !ListAdmitted(s, open, true, room, dup)
  {
    hide EatWs, Walked, Midway, NoRepeats, ListAdmitted;
  }

  /** The first name of an object, or its end. */
  lemma Starts(s: string, open: nat, room: nat, dup: bool)
    requires open < |s|
    ensures
      var k := EatWs(s, open + 1);
      if k < |s| && s[k] == '}'
      then ListAdmitted(s, open, true, room, dup) && ListEnd(s, open, true) == k + 1
      else Standing(s, open, open + 1, true, [], k, room, dup)
  {
    hide EatWs, Walked, Midway, NoRepeats, ListAdmitted, ListEnd;
    Opening(s, open, room, dup, true);
    WalkedNone(s, open + 1, room);
  }

  lemma MemberRefused(s: string, open: nat, c: nat, first: bool, names: seq<string>, i: nat, room: nat, dup: bool)
    requires Standing(s, open, c, first, names, i, room, dup) && !MemberAdmitted(s, c, names, room, dup)
    ensures !ListAdmitted(s, open, true, room, dup)
  {
    hide ParseItem, ParseItems, Admits, ListAdmitted, Midway, NoRepeats, NameOf, EatWs, AllWs, Walked;
    Refuses(s, open, c, first, names, room, dup, true);
  }

  /** After a member and a comma the walk stands at the next member, or the object is refused. */
  lemma {:induction false} MemberContinues(s: string, open: nat, c: nat, first: bool, names: seq<string>, key: string,
                                           i: nat, room: nat, dup: bool)
    requires Standing(s, open, c, first, names, i, room, dup) && MemberAdmitted(s, c, names, room, dup)
    requires NameOf(ParseItem(s, c, true).tree) == [key]
    requires ParseItem(s, c, true).tree.name.Named? && (dup ==> NoRepeats(names + [key]))
    requires var end := ParseItem(s, c, true).end; end < |s| && s[end] == ','
    ensures
      var end := ParseItem(s, c, true).end;
      var k := EatWs(s, end + 1);
      if k < |s| && s[k] != '}' then Standing(s, open, end + 1, false, names + [key], k, room, dup)
      else !ListAdmitted(s, open, true, room, dup)
  {
    hide ParseItem, ParseItems, Admits, ListAdmitted, Midway, NoRepeats, NameOf, EatWs, AllWs, Walked;
    var end := ParseItem(s, c, true).end;
    AdmitsLess(ParseItem(s, c, true).tree.value, room, dup);
    WalkedOn(s, open + 1, i, names, room, c, EatWs(s, end + 1));
    Continues(s, open, c, first, names, room, dup, true);
    TrailingComma(s, open, end + 1, names + [key], room, dup, true);
  }

  /** What follows a member decides: a bracket closes the list, a ',' asks for one more, anything else refuses. */
  lemma {:induction false} AfterMember(s: string, open: nat, c: nat, first: bool, names: seq<string>, key: string,
                                       i: nat, room: nat, dup: bool)
    requires Standing(s, open, c, first, names, i, room, dup) && MemberAdmitted(s, c, names, room, dup)
    requires NameOf(ParseItem(s, c, true).tree) == [key]
    ensures
      var end := EatWs(s, ValueEndsAt(s, c));
      if end < |s| && s[end] == '}' then ListAdmitted(s, open, true, room, dup) && ListEnd(s, open, true) == end + 1
      else if end < |s| && s[end] == ',' then
        var k := EatWs(s, end + 1);
        if k < |s| && s[k] != '}' then Standing(s, open, end + 1, false, names + [key], k, room, dup)
        else !ListAdmitted(s, open, true, room, dup)
      else !ListAdmitted(s, open, true, room, dup)
  {
    hide ParseItem, ParseItems, Admits, ListAdmitted, ListEnd, Midway, NoRepeats, NameOf, EatWs, AllWs, Walked,
         ValueEndsAt;
    MemberEnd(s, c);
    NamesFresh(names, key, dup);
    var end := ParseItem(s, c, true).end;
    if end < |s| && s[end] == '}' {
      Closes(s, open, c, first, names, room, dup, true);
    } else if end < |s| && s[end] == ',' {
      MemberContinues(s, open, c, first, names, key, i, room, dup);
    } else {
      Refuses(s, open, c, first, names, room, dup, true);
    }
  }

  lemma AdmitsLess(v: Value, room: nat, dup: bool)
    ensures Admits(v, room, dup) ==> Admits(v, room, false)
  {
  }

  lemma NewName(names: seq<string>, key: string)
    requires NoRepeats(names)
    ensures NoRepeats(names + [key]) <==> key !in names
  {
    if key in names {
      var i :| 0 <= i < |names| && names[i] == key;
      assert (names + [key])[i] == (names + [key])[|names|];
    }
  }

  lemma RepeatsStay(names: seq<string>, more: seq<string>, key: string)
    requires key in names && key in more
    ensures !NoRepeats(names + more)
  {
    var i :| 0 <= i < |names| && names[i] == key;
    var j :| 0 <= j < |more| && more[j] == key;
    assert (names + more)[i] == (names + more)[|names| + j];
  }

  method SkipCheckedValue(s: string, i: nat, depth: nat, checkDuplicates: bool)
    returns (ok: bool, end: nat, span: Found)
    requires i <= |s| && depth <= MAX_CHECKED_JSON_DEPTH
    ensures ok <==> ParseValue(s, i).Done?
                    && Admits(ParseValue(s, i).tree, MAX_CHECKED_JSON_DEPTH - depth, checkDuplicates)
    ensures ok ==> end == ParseValue(s, i).end && span == Extent(ParseValue(s, i).tree, i, end)
    decreases if checkDuplicates then 1 else 0, |s| - i, 3
  {
    hide ParseItems, BodyEnd, ParseNumber, At, AllWs, Distinct, DistinctBelow;
    span := Found(i, i, NullKind);
    if i >= |s| {
      return false, i, span;
    }
    var c := s[i];
    if c == '"' {
      var from, to;
      ok, end, from, to := SkipCheckedString(s, i, true);
      span := Found(from, to, StringKind);
      LeafAdmits(s, i, checkDuplicates);
      return;
    }
    if c == '{' || c == '[' {
      if depth >= MAX_CHECKED_JSON_DEPTH {
        return false, i, span;
      }
      if c == '{' {
        ok, end := SkipCheckedObject(s, i, depth + 1, checkDuplicates);
      } else {
        ok, end := SkipCheckedArray(s, i, depth + 1, checkDuplicates);
      }
      span := Found(i, end, if c == '{' then ObjectKind else ArrayKind);
      BoxAdmits(s, i, depth, checkDuplicates);
      return;
    }
    if c == 't' || c == 'f' || c == 'n' {
      var kind;
      ok, end, kind := SkipKeyword(s, i);
      span := Found(i, end, kind);
      LeafAdmits(s, i, checkDuplicates);
      return;
    }
    if c == '-' || IsDigit(c) {
      ok, end := SkipCheckedNumber(s, i);
      span := Found(i, end, NumberKind);
      LeafAdmits(s, i, checkDuplicates);
      return;
    }
    return false, i, span;
  }

  lemma LeafAdmits(s: string, i: nat, dup: bool)
    requires i < |s| && s[i] != '{' && s[i] != '['
    ensures ParseValue(s, i).Done? ==> Height(ParseValue(s, i).tree) == 0 && Admits(ParseValue(s, i).tree, 0, dup)
  {
    hide BodyEnd, ParseNumber, At;
  }

  lemma BoxAdmits(s: string, i: nat, depth: nat, dup: bool)
    requires i < |s| && (s[i] == '{' || s[i] == '[') && depth < MAX_CHECKED_JSON_DEPTH
    ensures var r := ParseItems(s, i + 1, s[i] == '{', true); var v := ParseValue(s, i);
      && (v.Done? <==> r.Done?)
      && (v.Done? ==>
            && v.end == r.end && v.tree == Box(s[i] == '{', r.tree)
            && (Admits(v.tree, MAX_CHECKED_JSON_DEPTH - depth, dup) <==>
                ItemsAdmit(r.tree, MAX_CHECKED_JSON_DEPTH - (depth + 1), dup)))
  {
    hide ParseItems, ItemsHeight, DistinctBelow;
  }

  /** One member, from its name to the end of its value. The source repeats these lines for the outermost
      object and for nested ones. */
  method SkipCheckedMember(s: string, objectStart: nat, start: nat, depth: nat, checkDuplicates: bool,
                           ghost c: nat, ghost names: seq<string>)
    returns (ok: bool, i: nat, key: string, span: Found)
    requires objectStart < c <= start <= |s| && s[objectStart] == '{' && depth <= MAX_CHECKED_JSON_DEPTH
    requires start == EatWs(s, c) && Walked(s, objectStart + 1, start, names, MAX_CHECKED_JSON_DEPTH - depth)
    ensures ok <==> MemberAdmitted(s, c, names, MAX_CHECKED_JSON_DEPTH - depth, checkDuplicates)
    ensures ok ==>
      && ParseItem(s, c, true).Done? && NameOf(ParseItem(s, c, true).tree) == [key]
      && (checkDuplicates ==> key !in names)
      && start < i <= |s| && i == ValueEndsAt(s, c)
      && span == Extent(ParseItem(s, c, true).tree.value, ValueStartsAt(s, c), ValueEndsAt(s, c))
    decreases if checkDuplicates then 1 else 0, |s| - start, 5
  {
    hide ParseItem, ParseItems, ParseValue, Admits, NameOf, BodyEnd, EatWs, AllWs, Walked, Extent, ValueStartsAt,
         ValueEndsAt;
    MemberSteps(s, c);
    i, key, span := start, "", Found(start, start, NullKind);
    var memberOffset := i;
    var from, to;
    ok, i, from, to := SkipCheckedString(s, i, false);
    if !ok {
      return;
    }
    key := s[from..to];
    if checkDuplicates {
      var seen := CheckedKeyAppearedBefore(s, objectStart, memberOffset, key, depth, names);
      if seen {
        return false, i, key, span;
      }
    }
    i := SkipWs(s, i);
    if i >= |s| || s[i] != ':' {
      return false, i, key, span;
    }
    i := SkipWs(s, i + 1);
    ok, i, span := SkipCheckedValue(s, i, depth, checkDuplicates);
  }

  method SkipCheckedObject(s: string, start: nat, depth: nat, checkDuplicates: bool)
    returns (ok: bool, i: nat)
    requires start < |s| && s[start] == '{' && depth <= MAX_CHECKED_JSON_DEPTH
    ensures ok <==> ListAdmitted(s, start, true, MAX_CHECKED_JSON_DEPTH - depth, checkDuplicates)
    ensures ok ==> i == ListEnd(s, start, true)
    decreases if checkDuplicates then 1 else 0, |s| - start, 2
  {
    hide *;
    ghost var room := MAX_CHECKED_JSON_DEPTH - depth;
    Starts(s, start, room, checkDuplicates);
    i := SkipWs(s, start + 1);
    if i < |s| && s[i] == '}' {
      return true, i + 1;
    }
    ghost var c, first, names: seq<string> := start + 1, true, [];
    while i < |s|
      invariant start < c <= i <= |s| && Standing(s, start, c, first, names, i, room, checkDuplicates)
      decreases |s| - i
    {
      ghost var memberOffset := i;
      StandingIs(s, start, c, first, names, i, room, checkDuplicates);
      var good, key, span;
      good, i, key, span := SkipCheckedMember(s, start, i, depth, checkDuplicates, c, names);
      if !good {
        MemberRefused(s, start, c, first, names, memberOffset, room, checkDuplicates);
        return false, i;
      }
      AfterMember(s, start, c, first, names, key, memberOffset, room, checkDuplicates);
      i := SkipWs(s, i);
      if i >= |s| {
        return false, i;
      }
      if s[i] == '}' {
        return true, i + 1;
      }
      if s[i] != ',' {
        return false, i;
      }
      c, first, names := i + 1, false, names + [key];
      i := SkipWs(s, i + 1);
      if i >= |s| || s[i] == '}' {
        return false, i;
      }
    }
    StandingIs(s, start, c, first, names, i, room, checkDuplicates);
    return false, i;
  }

  lemma MemberEnd(s: string, c: nat)
    requires c <= |s| && ParseItem(s, c, true).Done?
    ensures ParseItem(s, c, true).end == EatWs(s, ValueEndsAt(s, c))
    ensures ParseItem(s, c, true).tree.name.Named?
    ensures NameOf(ParseItem(s, c, true).tree) == [ParseItem(s, c, true).tree.name.key]
  {
    hide EatWs, AllWs, ParseValue, BodyEnd;
  }

  lemma NamesFresh(names: seq<string>, key: string, dup: bool)
    requires dup ==> NoRepeats(names) && key !in names
    ensures dup ==> NoRepeats(names + [key])
  {
    if dup {
      NewName(names, key);
    }
  }

  lemma Opening(s: string, open: nat, room: nat, dup: bool, isObject: bool)
    requires open < |s|
    ensures var k := EatWs(s, open + 1);
      if k < |s| && s[k] == Close(isObject)
      then ListAdmitted(s, open, isObject, room, dup) && ListEnd(s, open, isObject) == k + 1
      else Midway(s, open, open + 1, true, [], room, dup, isObject)
           && (k == |s| ==> !ListAdmitted(s, open, isObject, room, dup))
    ensures NoRepeats([])
  {
    hide EatWs, AllWs, ParseItem, NoRepeats, Height, Distinct;
    NoItemAtClose(s, open + 1, isObject);
    var whole := ParseItems(s, open + 1, isObject, true);
    if whole.Done? {
      assert [] + Names(whole.tree) == Names(whole.tree);
    }
    NothingRepeats();
  }

  lemma NothingRepeats()
    ensures NoRepeats([])
  {
  }

  lemma WalkedNone(s: string, c: nat, room: nat)
    requires c <= |s|
    ensures Walked(s, c, EatWs(s, c), [], room)
  {
  }

  method SkipCheckedArray(s: string, start: nat, depth: nat, checkDuplicates: bool)
    returns (ok: bool, i: nat)
    requires start < |s| && s[start] == '[' && depth <= MAX_CHECKED_JSON_DEPTH
    ensures ok <==> ListAdmitted(s, start, false, MAX_CHECKED_JSON_DEPTH - depth, checkDuplicates)
    ensures ok ==> i == ListEnd(s, start, false)
    decreases if checkDuplicates then 1 else 0, |s| - start, 2
  {
    hide ParseItems, ParseValue, Admits, ListAdmitted, ListEnd, Midway, NoRepeats, EatWs, AllWs, Extent;
    ghost var room := MAX_CHECKED_JSON_DEPTH - depth;
    Opening(s, start, room, checkDuplicates, false);
    i := SkipWs(s, start + 1);
    if i < |s| && s[i] == ']' {
      return true, i + 1;
    }
    ghost var c, first := start + 1, true;
    while i < |s|
      invariant start < c <= i <= |s| && i == EatWs(s, c) && !(i < |s| && s[i] == ']' && first)
      invariant Midway(s, start, c, first, [], room, checkDuplicates, false)
      invariant i == |s| ==> !ListAdmitted(s, start, false, room, checkDuplicates)
      decreases |s| - i
    {
      var good, span;
      good, i, span := SkipCheckedValue(s, i, depth, checkDuplicates);
      if !good {
        Refuses(s, start, c, first, [], room, checkDuplicates, false);
        return false, i;
      }
      i := SkipWs(s, i);
      if i >= |s| {
        Refuses(s, start, c, first, [], room, checkDuplicates, false);
        return false, i;
      }
      if s[i] == ']' {
        Closes(s, start, c, first, [], room, checkDuplicates, false);
        return true, i + 1;
      }
      if s[i] != ',' {
        Refuses(s, start, c, first, [], room, checkDuplicates, false);
        return false, i;
      }
      NoItemAtClose(s, c, false);
      assert [] + NameOf(ParseItem(s, c, false).tree) == [];
      Continues(s, start, c, first, [], room, checkDuplicates, false);
      c, first := i + 1, false;
      TrailingComma(s, start, c, [], room, checkDuplicates, false);
      i := SkipWs(s, i + 1);
      if i >= |s| || s[i] == ']' {
        return false, i;
      }
    }
    return false, i;
  }

  lemma WalkedStep(s: string, c: nat, before: nat, names: seq<string>, room: nat)
    requires Walked(s, c, before, names, room)
    ensures c <= |s| && (names == [] ==> EatWs(s, c) == before)
    ensures names != [] ==>
      var item := ParseItem(s, c, true);
      && item.Done? && NameOf(item.tree) == [names[0]] && Admits(item.tree.value, room, false)
      && EatWs(s, c) < item.end < before && item.end < |s| && s[item.end] == ','
      && Walked(s, item.end + 1, before, names[1..], room)
  {
    hide ParseValue, Admits, EatWs, AllWs;
  }

  /** Re-walk the validated prefix of an object, looking for an earlier member named `key`. */
  method CheckedKeyAppearedBefore(s: string, objectStart: nat, before: nat, key: string, depth: nat,
                                  ghost names: seq<string>)
    returns (seen: bool)
    requires objectStart < |s| && s[objectStart] == '{' && depth <= MAX_CHECKED_JSON_DEPTH
    requires Walked(s, objectStart + 1, before, names, MAX_CHECKED_JSON_DEPTH - depth) && before <= |s|
    ensures seen <==> key in names
    decreases 0, |s| - objectStart, 4
  {
    hide *;
    var i := objectStart;
    if i >= |s| || s[i] != '{' {
      return true;
    }
    i := SkipWs(s, i + 1);
    ghost var c, rest := objectStart + 1, names;
    while i < before
      invariant objectStart < c <= i <= |s| && i == EatWs(s, c)
      invariant Walked(s, c, before, rest, MAX_CHECKED_JSON_DEPTH - depth)
      invariant key in names <==> key in rest
    {
      WalkedStep(s, c, before, rest, MAX_CHECKED_JSON_DEPTH - depth);
      MemberSteps(s, c);
      var good, from, to;
      good, i, from, to := SkipCheckedString(s, i, false);
      if !good {
        return true;
      }
      if s[from..to] == key {
        return true;
      }
      i := SkipWs(s, i);
      if i >= before || s[i] != ':' {
        return true;
      }
      i := SkipWs(s, i + 1);
      var span;
      good, i, span := SkipCheckedValue(s, i, depth, false);
      if !good {
        return true;
      }
      i := SkipWs(s, i);
      if i >= before {
        return i != before;
      }
      if s[i] != ',' {
        return true;
      }
      c, rest := i + 1, rest[1..];
      i := SkipWs(s, i + 1);
    }
    WalkedStep(s, c, before, rest, MAX_CHECKED_JSON_DEPTH - depth);
    return i != before;
  }

  // ----------------------------------------------------- the entry point

  /** The verdict on a whole document and the extent of the object-valued member `key`. */
  function CheckedFind(s: string, key: string): MemberResult {
    var d := ParseDocument(s);
    if d.Fail? || !ItemsAdmit(d.tree.items, MAX_CHECKED_JSON_DEPTH, true) then Invalid
    else
      Verdict(LookupFrom(s, EatWs(s, 0) + 1, true, key))
  }

  /** The verdict in terms of the walk over the members. */
  lemma Entering(s: string, key: string)
    ensures var i := EatWs(s, 0);
      if i == |s| || s[i] != '{' then CheckedFind(s, key) == Invalid
      else
        && (!ListAdmitted(s, i, true, MAX_CHECKED_JSON_DEPTH, true) ==> CheckedFind(s, key) == Invalid)
        && (ListAdmitted(s, i, true, MAX_CHECKED_JSON_DEPTH, true) ==>
              if EatWs(s, ListEnd(s, i, true)) != |s| then CheckedFind(s, key) == Invalid
              else CheckedFind(s, key) == Verdict(LookupFrom(s, i + 1, true, key)))
        && (var k := EatWs(s, i + 1); k < |s| && s[k] == '}' ==> LookupFrom(s, i + 1, true, key) == None)
  {
    hide EatWs, AllWs, ParseItem, ParseItems, ItemsAdmit;
    var i := EatWs(s, 0);
    if i < |s| && s[i] == '{' {
      assert ParseItems(s, i + 1, true, true).Done? ==> ListEnd(s, i, true) <= |s|;
    }
  }

  function Verdict(f: Option<Found>): MemberResult {
    if f.None? then Missing
    else if f.value.kind == ObjectKind then Member(f.value.from, f.value.to)
    else Invalid
  }

  /** The search so far: either the member was found, or it is still to be looked for from `c`. */
  predicate Sought(s: string, open: nat, c: nat, first: bool, key: string, found: bool, candidate: (nat, nat)) {
    && open < |s| && c <= |s|
    && LookupFrom(s, open + 1, true, key) ==
         if found then Some(Found(candidate.0, candidate.1, ObjectKind)) else LookupFrom(s, c, first, key)
  }

  /** What one more member says about the search. */
  lemma {:induction false} SoughtOn(s: string, open: nat, c: nat, first: bool, key: string, found: bool,
                                    candidate: (nat, nat), name: string)
    requires Sought(s, open, c, first, key, found, candidate)
    requires var k := EatWs(s, c); !(first && k < |s| && s[k] == '}')
    requires c <= |s| && ParseItem(s, c, true).Done? && NameOf(ParseItem(s, c, true).tree) == [name]
    ensures
      var f := Extent(ParseItem(s, c, true).tree.value, ValueStartsAt(s, c), ValueEndsAt(s, c));
      var end := EatWs(s, ValueEndsAt(s, c));
      if name == key then
        && (!found ==> LookupFrom(s, open + 1, true, key) == Some(f))
        && (!found && f.kind == ObjectKind ==>
              forall next: nat | next <= |s| :: Sought(s, open, next, false, key, true, (f.from, f.to)))
      else
        && (end < |s| && s[end] == ',' ==> Sought(s, open, end + 1, false, key, found, candidate))
        && (end < |s| && s[end] != ',' ==>
              Verdict(LookupFrom(s, open + 1, true, key))
              == if found then Member(candidate.0, candidate.1) else Missing)
  {
    hide EatWs, AllWs, ParseItem, Extent, ValueStartsAt, ValueEndsAt;
    MemberEnd(s, c);
  }

  lemma SoughtNone(s: string, open: nat, key: string)
    requires open < |s|
    ensures Sought(s, open, open + 1, true, key, false, (0, 0))
  {
  }

  method JsonFindObjectChecked(s: string, key: string) returns (r: MemberResult)
    ensures r == CheckedFind(s, key)
  {
    hide ParseItem, ParseItems, ParseValue, Admits, ListAdmitted, ListEnd, NameOf, EatWs, AllWs, Walked, LookupFrom,
         CheckedFind, Extent, Sought, ValueStartsAt, ValueEndsAt, Standing, MemberAdmitted, Midway, NoRepeats;
    ghost var room := MAX_CHECKED_JSON_DEPTH;
    Entering(s, key);
    var i := SkipWs(s, 0);
    if i >= |s| || s[i] != '{' {
      return Invalid;
    }
    var objectStart := i;
    i := SkipWs(s, i + 1);
    var found, candidate := false, (0, 0);
    Starts(s, objectStart, room, true);
    if i < |s| && s[i] == '}' {
      i := SkipWs(s, i + 1);
      return if i == |s| then Missing else Invalid;
    }
    ghost var c, first, names: seq<string> := objectStart + 1, true, [];
    SoughtNone(s, objectStart, key);
    while i < |s|
      invariant objectStart < c <= i <= |s| && Standing(s, objectStart, c, first, names, i, room, true)
      invariant Sought(s, objectStart, c, first, key, found, candidate) && (found <==> key in names)
      decreases |s| - i
    {
      StandingIs(s, objectStart, c, first, names, i, room, true);
      if s[i] != '"' {
        NoNameNoMember(s, c, names, room, true);
        MemberRefused(s, objectStart, c, first, names, i, room, true);
        return Invalid;
      }
      ghost var memberOffset := i;
      var good, memberKey, span;
      good, i, memberKey, span := SkipCheckedMember(s, objectStart, i, 0, true, c, names);
      if !good {
        MemberRefused(s, objectStart, c, first, names, memberOffset, room, true);
        return Invalid;
      }
      SoughtOn(s, objectStart, c, first, key, found, candidate, memberKey);
      if memberKey == key {
        if found || span.kind != ObjectKind {
          return Invalid;
        }
        found := true;
        candidate := (span.from, span.to);
      }
      AfterMember(s, objectStart, c, first, names, memberKey, memberOffset, room, true);
      i := SkipWs(s, i);
      if i >= |s| {
        return Invalid;
      }
      if s[i] == '}' {
        i := SkipWs(s, i + 1);
        if i != |s| {
          return Invalid;
        }
        return if found then Member(candidate.0, candidate.1) else Missing;
      }
      if s[i] != ',' {
        return Invalid;
      }
      c, first, names := i + 1, false, names + [memberKey];
      i := SkipWs(s, i + 1);
      if i >= |s| || s[i] == '}' {
        return Invalid;
      }
    }
    StandingIs(s, objectStart, c, first, names, i, room, true);
    return Invalid;
  }

  lemma NoNameNoMember(s: string, c: nat, names: seq<string>, room: nat, dup: bool)
    requires c <= |s| && EatWs(s, c) < |s| && s[EatWs(s, c)] != '"'
    ensures !MemberAdmitted(s, c, names, room, dup)
  {
    hide ParseItem, EatWs;
    NoNameNoItem(s, c);
  }

  /** The strict walk decides a grammar: it does not refuse a text exactly when the text is one object of
      RFC 8259, with white space around it, that nests at most sixteen levels below the top, repeats no
      raw name at any level, and has the sought member absent or object-valued. */
  lemma StrictDecides(s: string, key: string)
    ensures CheckedFind(s, key) != Invalid <==>
      exists d: Document :: DocumentText(d) == s && IsDocument(d) && Acceptable(d, key)
    ensures forall d: Document | DocumentText(d) == s && IsDocument(d) :: ParseDocument(s) == Done(d, |s|)
  {
    hide IsDocument, DocumentText, ParseDocument, Acceptable;
    forall d: Document | DocumentText(d) == s && IsDocument(d) ensures ParseDocument(s) == Done(d, |s|) {
      ParseDocumentComplete(d);
    }
    if ParseDocument(s).Done? {
      ParseDocumentSound(s);
      ParsedIsWhole(s);
      AcceptedWhen(s, key);
    } else {
      RefusedUnparsed(s, key);
    }
  }

  predicate Acceptable(d: Document, key: string) {
    && Height(Box(true, d.items)) <= MAX_CHECKED_JSON_DEPTH + 1
    && Distinct(Box(true, d.items))
    && (MemberOf(d.items, key).Some? ==> KindOf(MemberOf(d.items, key).value) == ObjectKind)
  }

  lemma ParsedIsWhole(s: string)
    requires ParseDocument(s).Done?
    ensures ParseDocument(s).end == |s|
  {
  }

  lemma RefusedUnparsed(s: string, key: string)
    requires ParseDocument(s).Fail?
    ensures CheckedFind(s, key) == Invalid
  {
  }

  lemma AcceptedWhen(s: string, key: string)
    requires ParseDocument(s).Done?
    ensures CheckedFind(s, key) != Invalid <==> Acceptable(ParseDocument(s).tree, key)
    ensures match CheckedFind(s, key)
      case Invalid => true
      case Missing => MemberOf(ParseDocument(s).tree.items, key) == None
      case Member(from, to) =>
        var m := MemberOf(ParseDocument(s).tree.items, key);
        m.Some? && from <= to <= |s| && s[from..to] == ValueText(m.value)
  {
    hide ParseItems, EatWs, AllWs, LookupFrom, MemberOf, Names, ItemsHeight, DistinctBelow, NoRepeats;
    LookupFinds(s, EatWs(s, 0) + 1, true, key);
  }
}
