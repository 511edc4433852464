/** Printed objects, member by member. */
module JsonObjects {
  import opened Bytes
  import opened JsonGrammar
  import opened JsonLookup
  import opened JsonLenient
  import opened JsonRead
  import opened JsonRoundTrip
  import opened JsonSize
  import W = JsonWriter

  /** One entry at a time. */
  lemma EntryStep(name: string, value: Data, rest: Entries)
    ensures var es := Entry(name, value, rest);
      && EntryNames(es) == [name] + EntryNames(rest)
      && PrintableEntries(es) == (Printable(value) && PrintableEntries(rest))
      && EntriesPrintHeight(es) == Max(PrintHeight(value), EntriesPrintHeight(rest))
      && forall key :: EntryOf(es, key) == if name == key then Some(value) else EntryOf(rest, key)
  {
  }

  lemma NoSteps()
    ensures EntryNames(NoEntries) == [] && PrintableEntries(NoEntries) && EntriesPrintHeight(NoEntries) == 0
    ensures forall key :: EntryOf(NoEntries, key) == None
  {
  }

  lemma Scalars()
    ensures forall t :: Printable(DText(t)) && PrintHeight(DText(t)) == 0
    ensures forall i :: Printable(DInt(i)) && PrintHeight(DInt(i)) == 0
    ensures forall b :: Printable(DFlag(b)) && PrintHeight(DFlag(b)) == 0
    ensures forall v :: PrintHeight(DRaw(v)) == 0
  {
  }

  lemma BoxShape(es: Entries)
    requires PrintableEntries(es) && forall n | n in EntryNames(es) :: IsPlain(n)
    ensures Printable(DBox(true, es)) && PrintHeight(DBox(true, es)) == 1 + EntriesPrintHeight(es)
  {
  }

  lemma SafeIsPlain(text: string)
    requires IsSafe(text)
    ensures IsPlain(text)
  {
  }

  /** Reading a member of a printed object by a name that is printed as it is. */
  lemma Reads(es: Entries, name: string, overflow: Overflow := map[])
    requires Printable(DBox(true, es)) && PrintHeight(DBox(true, es)) <= W.MAX_DEPTH
    requires IsPlain(name) && W.Escape(name) == name
    ensures ParseDocument(Render(DBox(true, es))).Done?
    ensures
      var s := Render(DBox(true, es));
      match EntryOf(es, name)
      case None => FindSpec(s, name) == None
      case Some(DText(t)) =>
        RawStringOf(s, name) == Some(W.Escape(t)) && Unescape(W.Escape(t)) == if IsPlain(t) then Some(t) else None
      case Some(DInt(i)) => IntegerOf(s, name, overflow)
        == if -MAX_INT64 <= i <= MAX_INT64 then Some(i) else Overflown(W.IntegerText(i), overflow)
      case Some(DFlag(b)) => BoolOf(s, name) == Some(b)
      case Some(DRaw(v)) => TextOf(s, name, KindOf(v)) == Some(Shown(v))
      case Some(DBox(true, inner)) => ObjectOf(s, name) == Some(Render(DBox(true, inner)))
      case _ => true
  {
    hide W.Escape, IsPlain, Printable, PrintHeight, Render, EntryOf, RawStringOf, IntegerOf, BoolOf, FindSpec,
         ParseDocument, Unescape, TextOf, StatedInteger, Overflowing;
    ReadsBack(es, name, overflow);
    PrintedParses(es);
  }

  // ------------------------------------------------------------- one line

  predicate NoControls(text: string) { forall k | 0 <= k < |text| :: !IsControl(text[k]) }

  lemma {:induction false} EscapeHasNoControls(text: string)
    ensures NoControls(W.Escape(text))
    decreases |text|
  {
    if text != "" {
      hide W.EscapeOf, NoControls;
      EscapeHasNoControls(text[1..]);
      EscapeOfHasNone(text[0]);
      JoinControls(W.EscapeOf(text[0]), W.Escape(text[1..]));
    }
  }

  lemma EscapeOfHasNone(c: char)
    ensures NoControls(W.EscapeOf(c))
  {
  }

  lemma {:induction false} DigitsHaveNoControls(n: nat)
    ensures NoControls(W.DigitsOf(n))
  {
    if n > 0 {
      DigitsHaveNoControls(n / 10);
    }
  }

  lemma JoinControls(a: string, b: string)
    ensures NoControls(a + b) <==> NoControls(a) && NoControls(b)
  {
    assert NoControls(a + b) ==> NoControls(a) && NoControls(b) by {
      if NoControls(a + b) {
        assert forall k | 0 <= k < |a| :: a[k] == (a + b)[k];
        assert forall k | 0 <= k < |b| :: b[k] == (a + b)[|a| + k];
      }
    }
  }

  /** What the printer prints stays on one line, whatever the texts hold. */
  lemma {:induction false} RenderHasNoControls(d: Data)
    requires !HasRaw(d)
    ensures NoControls(Render(d))
    decreases d, 1
  {
    hide W.Escape, W.IntegerText, NumberText, NoControls, EntriesText;
    MarksHaveNoControls();
    match d {
      case DText(t) =>
        EscapeHasNoControls(t);
        JoinControls(W.Escape(t), "\"");
        JoinControls("\"", W.Escape(t) + "\"");
      case DInt(i) =>
        NumberForText(i);
        IntegerHasNoControls(i);
      case DFlag(_) =>
      case DNull =>
      case DBox(isObject, es) =>
        EntriesTextCloses(isObject, es);
        EntriesHaveNoControls(isObject, es);
        JoinControls(EntriesText(isObject, es), [Close(isObject)]);
        JoinControls([Open(isObject)], EntriesText(isObject, es) + [Close(isObject)]);
    }
  }

  lemma MarksHaveNoControls()
    ensures NoControls("\"") && NoControls("true") && NoControls("false") && NoControls("null")
    ensures forall isObject :: NoControls([Open(isObject)]) && NoControls([Close(isObject)])
  {
  }

  lemma IntegerHasNoControls(i: int)
    ensures NoControls(W.IntegerText(i))
  {
    DigitsHaveNoControls(if i < 0 then -i else i);
    hide W.DigitsOf;
  }

  lemma {:induction false} EntriesHaveNoControls(isObject: bool, es: Entries)
    requires !EntriesHaveRaw(es)
    ensures NoControls(EntriesText(isObject, es))
    decreases es, 1
  {
    hide Render, W.Escape, ConcreteItem, ItemText;
    if es.Entry? {
      RenderHasNoControls(es.value);
      EscapeHasNoControls(es.name);
      ItemHasNoControls(isObject, es.name, es.value);
      if es.rest.Entry? {
        EntriesHaveNoControls(isObject, es.rest);
      }
      JoinControls(",", EntriesText(isObject, es.rest));
      JoinControls(ItemText(ConcreteItem(isObject, es.name, es.value)),
                   if es.rest.NoEntries? then "" else "," + EntriesText(isObject, es.rest));
    }
  }

  lemma ItemHasNoControls(isObject: bool, name: string, value: Data)
    requires NoControls(Render(value)) && NoControls(W.Escape(name))
    ensures NoControls(ItemText(ConcreteItem(isObject, name, value)))
  {
    hide W.Escape, Concrete, ValueText;
  }
}
