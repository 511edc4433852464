/** Reading the arguments of a command, and those of conversation.start in particular: a request that says
    anything must never turn into a recording. */
module ConversationStart {
  import opened Bytes
  import opened JsonGrammar
  import opened JsonLookup
  import opened JsonChecked
  import opened JsonLenient
  import opened JsonRead
  import opened JsonRoundTrip

  const ARENA_BYTES: nat := 512
  const MAX_START_TEXT_BYTES: nat := 480

  // ------------------------------------------------------- specification

  /** The position of the first '{', or the length. */
  function Brace(s: string): (r: nat)
    ensures r <= |s|
    ensures r < |s| ==> s[r] == '{'
    ensures forall k | 0 <= k < r :: s[k] != '{'
  {
    if s == "" || s[0] == '{' then 0 else 1 + Brace(s[1..])
  }

  /** Whether a payload says nothing: nothing stands between its opening brace and its closing one. */
  predicate SaysNothing(s: string) {
    var b := Brace(s);
    b == |s| || (var k := EatWs(s, b + 1); k == |s| || s[k] == '}')
  }

  datatype StartInput = Listens | Speaks(text: string) | Refused

  /** What a payload asks for, with `room` bytes to unescape its text into. */
  function StartOf(payload: string, room: nat): StartInput {
    if SaysNothing(payload) then Listens
    else
      match RawStringOf(payload, "text")
      case None => Refused
      case Some(raw) =>
        match Unescape(raw)
        case None => Refused
        case Some(text) => if 1 <= |text| <= MAX_START_TEXT_BYTES && |text| <= room then Speaks(text) else Refused
  }

  // ------------------------------------------------------------- the arena

  /** A string handed out to a handler: where it stands in the arena, and what it says. */
  datatype Slot = Slot(from: nat, to: nat, text: string)

  lemma SliceInside(text: string, from: nat, to: nat, end: nat)
    requires from <= to <= end <= |text|
    ensures text[..end][from..to] == text[from..to]
  {
  }

  class ScanParams {
    const payload: string
    const arena: array<char>
    var arenaUsed: nat
    ghost var handed: seq<Slot>

    /** Every string handed out so far still says what it said. */
    ghost predicate Valid()
      reads this, arena
    {
      && arena.Length == ARENA_BYTES && arenaUsed <= arena.Length
      && forall k | 0 <= k < |handed| ::
           && handed[k].from <= handed[k].to <= arenaUsed
           && arena[handed[k].from..handed[k].to] == handed[k].text
    }

    constructor (payload: string)
      ensures Valid() && fresh(arena) && this.payload == payload && arenaUsed == 0 && handed == []
    {
      this.payload := payload;
      arena := new char[ARENA_BYTES];
      arenaUsed, handed := 0, [];
    }

    /** The string member `key`, unescaped into a slice of the arena. A read that fails hands out nothing. */
    method ReadString(key: string) returns (r: Option<Slot>)
      requires Valid()
      modifies this, arena
      ensures Valid()
      ensures
        var raw := RawStringOf(payload, key);
        r.Some? <==>
          raw.Some? && Unescape(raw.value).Some? && |Unescape(raw.value).value| <= ARENA_BYTES - old(arenaUsed)
      ensures r.Some? ==>
        r.value == Slot(old(arenaUsed), arenaUsed, Unescape(RawStringOf(payload, key).value).value)
      ensures r.None? ==> arenaUsed == old(arenaUsed)
      ensures handed == old(handed) + if r.Some? then [r.value] else []
    {
      hide RawStringOf, Unescape;
      ghost var before := arena[..arenaUsed];
      var raw := JsonFindRawString(payload, key);
      if raw.None? {
        return None;
      }
      var written := JsonUnescape(raw.value, arena, arenaUsed, arena.Length - arenaUsed);
      forall k | 0 <= k < |handed|
        ensures arena[handed[k].from..handed[k].to] == before[handed[k].from..handed[k].to]
      {
        assert arena[..arenaUsed] == before;
        SliceInside(arena[..], handed[k].from, handed[k].to, arenaUsed);
      }
      assert forall k | 0 <= k < |handed| :: before[handed[k].from..handed[k].to] == handed[k].text;
      if written.None? {
        return None;
      }
      r := Some(Slot(arenaUsed, arenaUsed + written.value, arena[arenaUsed..arenaUsed + written.value]));
      arenaUsed := arenaUsed + written.value;
      handed := handed + [r.value];
    }

    /** Whether the payload says nothing at all. */
    method Empty() returns (b: bool)
      ensures b == SaysNothing(payload)
    {
      if payload == "" {
        return true;
      }
      var inside := false;
      var i := 0;
      while i < |payload|
        invariant 0 <= i <= |payload|
        invariant inside == (i > Brace(payload))
        invariant !inside ==> forall k | 0 <= k < i :: payload[k] != '{'
        invariant inside ==> EatWs(payload, Brace(payload) + 1) == EatWs(payload, i)
      {
        var c := payload[i];
        if !inside {
          if c == '{' {
            inside := true;
          }
        } else if c == '"' {
          return false;
        } else if c == '}' {
          return true;
        } else if c != ' ' && c != '\t' && c != '\n' && c != '\r' {
          return false;
        }
        i := i + 1;
      }
      return true;
    }
  }

  /** The input of conversation.start. */
  method ReadConversationStartInput(params: ScanParams) returns (input: StartInput)
    requires params.Valid()
    modifies params, params.arena
    ensures params.Valid() && input == StartOf(params.payload, ARENA_BYTES - old(params.arenaUsed))
  {
    hide RawStringOf, Unescape, SaysNothing;
    var nothing := params.Empty();
    if nothing {
      return Listens;
    }
    var text := params.ReadString("text");
    if text.None? || text.value.text == "" || |text.value.text| > MAX_START_TEXT_BYTES {
      return Refused;
    }
    return Speaks(text.value.text);
  }

  // ------------------------------------------------- from the request body

  /** The payload that the strict walk passes on: empty when there is none. */
  function PayloadOf(body: string): string {
    match CheckedFind(body, "payload")
    case Member(from, to) => if from <= to <= |body| then body[from..to] else ""
    case _ => ""
  }

  lemma {:induction false} MemberIsValue(isObject: bool, items: Items, first: bool, key: string)
    requires IsItems(isObject, items, first) && MemberOf(items, key).Some?
    ensures IsValue(MemberOf(items, key).value)
    decreases items
  {
    hide IsValue, IsName, AllWs;
    if items.More? && NameOf(items.item) != [key] {
      MemberIsValue(isObject, items.rest, false, key);
    }
  }

  /** The payload as a tree: the object-valued member of the body. */
  lemma PayloadTree(body: string)
    requires CheckedFind(body, "payload") != Invalid
    ensures ParseDocument(body).Done?
    ensures
      var m := MemberOf(ParseDocument(body).tree.items, "payload");
      if m.None? then PayloadOf(body) == ""
      else m.value.Box? && m.value.isObject && IsValue(m.value) && PayloadOf(body) == ValueText(m.value)
  {
    hide ParseDocument, MemberOf, ValueText, IsItems;
    StrictDecides(body, "payload");
    ParseDocumentSound(body);
    AcceptedWhen(body, "payload");
    var items := ParseDocument(body).tree.items;
    if MemberOf(items, "payload").Some? {
      MemberIsValue(true, items, true, "payload");
    }
  }

  /** An object says nothing exactly when it has no members. */
  lemma ObjectSays(items: Items)
    requires IsItems(true, items, true)
    ensures SaysNothing(ValueText(Box(true, items))) <==> items.Blank?
  {
    hide At, AllWs, EatWs, ItemsText, IsItems, Lead, ValueText;
    var s, lead := ValueText(Box(true, items)), Lead(items);
    ItemsBegin(items);
    ObjectBegins(items);
    EatWsOver(s, 1, lead);
  }

  lemma ObjectBegins(items: Items)
    requires IsItems(true, items, true)
    ensures
      var s, lead := ValueText(Box(true, items)), Lead(items);
      && s != "" && s[0] == '{' && Brace(s) == 0 && At(s, 1, lead)
      && 1 + |lead| < |s| && s[1 + |lead|] == if items.Blank? then '}' else '"'
  {
    hide At, AllWs, ItemsText, IsItems, Lead;
    var s, body, lead := ValueText(Box(true, items)), ItemsText(true, items), Lead(items);
    assert s == "{" + body;
    hide ValueText;
    ItemsBegin(items);
    AtSlice(s, 0, |s|);
    assert s[0..|s|] == s;
    AtSplit(s, 0, "{", lead + body[|lead|..]);
    AtSplit(s, 1, lead, body[|lead|..]);
    AtByte(s, 1 + |lead|, body[|lead|..], 0);
  }

  /** The white space after an opening bracket. */
  function Lead(items: Items): string {
    match items
    case Blank(ws) => ws
    case Last(item) => item.lead
    case More(item, _) => item.lead
  }

  lemma ItemsBegin(items: Items)
    requires IsItems(true, items, true)
    ensures
      var body := ItemsText(true, items);
      && AllWs(Lead(items)) && |Lead(items)| < |body| && body == Lead(items) + body[|Lead(items)|..]
      && body[|Lead(items)|] == if items.Blank? then '}' else '"'
  {
    hide AllWs, IsValue, ValueText, IsBody;
    if !items.Blank? {
      var item := if items.Last? then items.item else items.item;
      assert NameText(item.name)[0] == '"';
    }
  }

  lemma {:induction false} UnescapedIsPlain(raw: string)
    requires IsBody(raw, true)
    ensures Unescape(raw).Some? ==> IsPlain(Unescape(raw).value)
    decreases |raw|
  {
    if raw != "" && Unescape(raw).Some? {
      if raw[0] == '\\' {
        UnescapedIsPlain(raw[2..]);
      } else {
        UnescapedIsPlain(raw[1..]);
      }
    }
  }

  /** A failed text request never becomes a recording. For every body that the strict walk passes on: the
      command listens exactly when the payload is absent or has no members; with any member it speaks the
      unescaped text of 1 to 480 bytes that fits in the room there is, and which holds no NUL, or is refused. */
  lemma NeverRecordsByMistake(body: string, room: nat)
    requires CheckedFind(body, "payload") != Invalid
    ensures ParseDocument(body).Done?
    ensures
      var m := MemberOf(ParseDocument(body).tree.items, "payload");
      var input := StartOf(PayloadOf(body), room);
      && (m.Some? ==> m.value.Box?)
      && (input == Listens <==> m.None? || m.value.items.Blank?)
      && (m.Some? && !m.value.items.Blank? ==>
            var text := MemberOf(m.value.items, "text");
            forall t :: input == Speaks(t) <==>
              && text.Some? && text.value.Str? && Unescape(text.value.raw) == Some(t)
              && 1 <= |t| <= MAX_START_TEXT_BYTES && |t| <= room)
      && (input.Speaks? ==> IsPlain(input.text) && '\0' !in input.text)
  {
    hide ParseDocument, MemberOf, ValueText, IsItems, SaysNothing, Unescape, FindSpec;
    PayloadTree(body);
    var m := MemberOf(ParseDocument(body).tree.items, "payload");
    if m.None? {
      NothingSaysNothing();
    } else {
      var items := m.value.items;
      ObjectSays(items) by { ItemsOf(m.value); }
      if !items.Blank? {
        PayloadMember(items, "text") by { ItemsOf(m.value); }
      }
    }
  }

  lemma ItemsOf(v: Value)
    requires IsValue(v) && v.Box?
    ensures IsItems(v.isObject, v.items, true) && v == Box(v.isObject, v.items)
  {
  }

  lemma NothingSaysNothing()
    ensures SaysNothing("")
  {
  }

  /** Looking up a string member of an object text. */
  lemma PayloadMember(items: Items, key: string)
    requires IsItems(true, items, true)
    ensures
      var m := MemberOf(items, key);
      var raw := RawStringOf(ValueText(Box(true, items)), key);
      && (raw.Some? <==> m.Some? && m.value.Str?)
      && (raw.Some? ==> raw.value == m.value.raw)
      && (raw.Some? && Unescape(raw.value).Some? ==>
            IsPlain(Unescape(raw.value).value) && '\0' !in Unescape(raw.value).value)
  {
    hide ValueText, ItemsText, IsItems, MemberOf, FindSpec, ParseDocument, IsPlain, Unescape, LookupFrom, EatWs;
    var d := Document("", items, "");
    BareDocument(items);
    ParseDocumentComplete(d);
    DocumentFound(DocumentText(d), key);
    PlainMember(items, key);
  }

  lemma BareDocument(items: Items)
    ensures DocumentText(Document("", items, "")) == ValueText(Box(true, items))
  {
    hide ValueText;
    var s := ValueText(Box(true, items));
    assert "" + (s + "") == s;
  }

  lemma PlainMember(items: Items, key: string)
    requires IsItems(true, items, true)
    ensures
      var m := MemberOf(items, key);
      m.Some? && m.value.Str? && Unescape(m.value.raw).Some? ==>
        IsPlain(Unescape(m.value.raw).value) && '\0' !in Unescape(m.value.raw).value
  {
    hide IsItems, MemberOf, IsPlain, Unescape;
    var m := MemberOf(items, key);
    if m.Some? && m.value.Str? && Unescape(m.value.raw).Some? {
      MemberIsValue(true, items, true, key);
      UnescapedIsPlain(m.value.raw);
      PlainHasNoNul(Unescape(m.value.raw).value);
    }
  }

  lemma PlainHasNoNul(text: string)
    requires IsPlain(text)
    ensures '\0' !in text
  {
  }
}
