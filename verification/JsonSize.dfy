/** How long a printed value is: what the fixed buffers are measured against. */
module JsonSize {
  import opened JsonGrammar
  import opened JsonRoundTrip
  import W = JsonWriter

  /** Text that is printed as it is. */
  predicate IsSafe(text: string) {
    forall k | 0 <= k < |text| :: !IsControl(text[k]) && text[k] != '"' && text[k] != '\\'
  }

  lemma {:induction false} EscapeSafe(text: string)
    requires IsSafe(text)
    ensures W.Escape(text) == text
    decreases |text|
  {
    if text != "" {
      EscapeSafe(text[1..]);
      assert W.EscapeOf(text[0]) == [text[0]];
      assert [text[0]] + text[1..] == text;
    }
  }

  /** A byte grows to six at most, and to two if it has a short escape. */
  lemma {:induction false} EscapeAtMost(text: string)
    ensures |W.Escape(text)| <= 6 * |text|
    ensures IsPlain(text) ==> |W.Escape(text)| <= 2 * |text|
    decreases |text|
  {
    if text != "" {
      EscapeAtMost(text[1..]);
      assert |W.EscapeOf(text[0])| <= if IsOddControl(text[0]) then 6 else 2;
    }
  }

  function SizeOf(d: Data): nat
    decreases d, 1
  {
    match d
    case DText(t) => 2 + |W.Escape(t)|
    case DInt(i) => |W.IntegerText(i)|
    case DFlag(b) => if b then 4 else 5
    case DNull => 4
    case DRaw(v) => |ValueText(v)|
    case DBox(isObject, es) => 2 + EntriesSize(isObject, es)
  }

  function EntriesSize(isObject: bool, es: Entries): nat
    decreases es, 1
  {
    match es
    case NoEntries => 0
    case Entry(name, value, rest) =>
      (if isObject then 3 + |W.Escape(name)| else 0) + SizeOf(value)
      + (if rest.Entry? then 1 + EntriesSize(isObject, rest) else 0)
  }

  lemma {:induction false} RenderSize(d: Data)
    ensures |Render(d)| == SizeOf(d)
    decreases d, 1
  {
    hide W.Escape, W.IntegerText, NumberText;
    match d {
      case DText(_) =>
      case DInt(i) => NumberForText(i);
      case DFlag(_) =>
      case DNull =>
      case DRaw(_) =>
      case DBox(isObject, es) =>
        EntriesTextCloses(isObject, es);
        EntriesTextSize(isObject, es);
    }
  }

  lemma {:induction false} EntriesTextSize(isObject: bool, es: Entries)
    ensures |EntriesText(isObject, es)| == EntriesSize(isObject, es)
    decreases es, 1
  {
    hide W.Escape, Concrete, SizeOf;
    if es.Entry? {
      RenderSize(es.value);
      if es.rest.Entry? {
        EntriesTextSize(isObject, es.rest);
      }
    }
  }

  // --------------------------------------------------- an entry at a time

  lemma BoxSize(es: Entries)
    ensures SizeOf(DBox(true, es)) == 2 + EntriesSize(true, es) && EntriesSize(true, NoEntries) == 0
  {
  }

  lemma EntrySize(name: string, value: Data, rest: Entries)
    ensures EntriesSize(true, Entry(name, value, rest))
         == 3 + |W.Escape(name)| + SizeOf(value) + (if rest.Entry? then 1 + EntriesSize(true, rest) else 0)
    ensures match value
      case DText(t) => SizeOf(value) == 2 + |W.Escape(t)|
      case DInt(i) => SizeOf(value) == |W.IntegerText(i)|
      case DFlag(_) => SizeOf(value) <= 5
      case _ => true
    ensures EntriesSize(true, NoEntries) == 0
  {
    hide W.Escape, W.IntegerText;
  }
}
