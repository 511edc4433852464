/** The envelope around every response. */
module Envelope {
  import opened JsonGrammar
  import opened JsonRoundTrip
  import opened JsonSize
  import opened Protocol
  import W = JsonWriter

  /** The rest of an envelope, after its version and its kind. */
  function Enveloped(rest: Entries): Data {
    DBox(true, Entry("v", DInt(1), Entry("kind", DText("result"), rest)))
  }

  function ResultData(id: string, payload: Value): Data {
    Enveloped(Entry("id", DText(id), Entry("ok", DFlag(true), Entry("payload", DRaw(payload), NoEntries))))
  }

  function ErrorEntries(code: ErrorCode, message: string): Entries {
    var retryable := Entry("retryable", DFlag(IsRetryable(code)), NoEntries);
    Entry("code", DText(CodeName(code)),
          if message == "" then retryable else Entry("message", DText(message), retryable))
  }

  function ErrorData(id: string, code: ErrorCode, message: string): Data {
    Enveloped(Entry("id", DText(id),
                    Entry("ok", DFlag(false), Entry("error", DBox(true, ErrorEntries(code, message)), NoEntries))))
  }

  /** What stands for a payload that was not written. */
  const EMPTY_PAYLOAD: Value := Box(true, Blank(""))

  // -------------------------------------------------------------- methods

  method WriteHeader(out: W.JsonWriter)
    requires out.Valid()
    modifies out, out.buffer, out.isObject
    ensures out.Valid()
    ensures out.State() == HeaderPage(old(out.State()), out.Size())
  {
    hide W.Apply;
    NaturalOne(W.Apply(W.Apply(out.State(), out.Size(), W.Begin(true)), out.Size(), W.Key("v")), out.Size());
    out.OpenBracket(true);
    out.WriteKey("v");
    out.WriteNatural(1);
    out.WriteKey("kind");
    out.WriteText("result");
  }

  function HeaderPage(p: W.Page, paper: W.Paper): W.Page {
    W.Apply(W.Apply(W.Apply(W.Apply(W.Apply(p, paper, W.Begin(true)), paper, W.Key("v")), paper, W.Integer(1)),
                    paper, W.Key("kind")), paper, W.Text("result"))
  }

  lemma NaturalOne(p: W.Page, paper: W.Paper)
    ensures W.Apply(p, paper, W.Natural(1)) == W.Apply(p, paper, W.Integer(1))
  {
  }

  lemma HeaderRuns(p: W.Page, paper: W.Paper, rest: Entries)
    ensures RunData(p, paper, Enveloped(rest))
         == W.Apply(RunEntries(HeaderPage(p, paper), paper, true, rest), paper, W.End(true))
  {
    hide W.Apply;
    var begun := W.Apply(p, paper, W.Begin(true));
    var kind := Entry("kind", DText("result"), rest);
    var versioned := W.Apply(W.Apply(begun, paper, W.Key("v")), paper, W.Integer(1));
    assert RunEntries(begun, paper, true, Entry("v", DInt(1), kind)) == RunEntries(versioned, paper, true, kind);
    assert RunEntries(versioned, paper, true, kind)
        == RunEntries(W.Apply(W.Apply(versioned, paper, W.Key("kind")), paper, W.Text("result")), paper, true, rest);
  }

  /** Wrap a payload that has been written. `value` is what its text stands for. */
  method WriteResult(out: W.JsonWriter, id: string, payloadJson: string, ghost value: Value)
    requires out.Valid()
    requires ValueText(value) == if payloadJson == "" then "{}" else payloadJson
    modifies out, out.buffer, out.isObject
    ensures out.Valid()
    ensures out.State() == RunData(old(out.State()), out.Size(), ResultData(id, value))
  {
    hide W.Apply, HeaderPage, ValueText;
    ghost var rest := Entry("id", DText(id), Entry("ok", DFlag(true), Entry("payload", DRaw(value), NoEntries)));
    HeaderRuns(out.State(), out.Size(), rest);
    WriteHeader(out);
    ResultRuns(out.State(), out.Size(), id, value);
    out.WriteKey("id");
    out.WriteText(id);
    out.WriteKey("ok");
    out.WriteFlag(true);
    out.WriteKey("payload");
    out.WriteRaw(if payloadJson == "" then "{}" else payloadJson);
    out.CloseBracket(true);
  }

  lemma ResultRuns(p: W.Page, paper: W.Paper, id: string, value: Value)
    ensures
      var last := Entry("payload", DRaw(value), NoEntries);
      var p1 := W.Apply(W.Apply(p, paper, W.Key("id")), paper, W.Text(id));
      var p2 := W.Apply(W.Apply(p1, paper, W.Key("ok")), paper, W.Flag(true));
      RunEntries(p, paper, true, Entry("id", DText(id), Entry("ok", DFlag(true), last)))
      == W.Apply(W.Apply(p2, paper, W.Key("payload")), paper, W.Raw(ValueText(value)))
  {
    hide W.Apply, ValueText;
    var last := Entry("payload", DRaw(value), NoEntries);
    var p1 := W.Apply(W.Apply(p, paper, W.Key("id")), paper, W.Text(id));
    var p2 := W.Apply(W.Apply(p1, paper, W.Key("ok")), paper, W.Flag(true));
    assert RunEntries(p1, paper, true, Entry("ok", DFlag(true), last)) == RunEntries(p2, paper, true, last);
    var p3 := W.Apply(W.Apply(p2, paper, W.Key("payload")), paper, W.Raw(ValueText(value)));
    assert RunEntries(p2, paper, true, last) == RunEntries(p3, paper, true, NoEntries);
  }

  method WriteError(out: W.JsonWriter, id: string, code: ErrorCode, message: string)
    requires out.Valid()
    modifies out, out.buffer, out.isObject
    ensures out.Valid()
    ensures out.State() == RunData(old(out.State()), out.Size(), ErrorData(id, code, message))
  {
    hide W.Apply, HeaderPage;
    ghost var errors := Entry("error", DBox(true, ErrorEntries(code, message)), NoEntries);
    ghost var rest := Entry("id", DText(id), Entry("ok", DFlag(false), errors));
    HeaderRuns(out.State(), out.Size(), rest);
    WriteHeader(out);
    ghost var p, paper := out.State(), out.Size();
    out.WriteKey("id");
    out.WriteText(id);
    ghost var p1 := out.State();
    out.WriteKey("ok");
    out.WriteFlag(false);
    ghost var p2 := out.State();
    assert RunEntries(p, paper, true, rest) == RunEntries(p1, paper, true, Entry("ok", DFlag(false), errors));
    assert RunEntries(p1, paper, true, Entry("ok", DFlag(false), errors)) == RunEntries(p2, paper, true, errors);
    out.WriteKey("error");
    ErrorsRun(out.State(), paper, code, message);
    out.OpenBracket(true);
    out.WriteKey("code");
    out.WriteText(CodeName(code));
    if message != "" {
      out.WriteKey("message");
      out.WriteText(message);
    }
    out.WriteKey("retryable");
    out.WriteFlag(IsRetryable(code));
    out.CloseBracket(true);
    assert RunEntries(p2, paper, true, errors) == RunEntries(out.State(), paper, true, NoEntries);
    out.CloseBracket(true);
  }

  lemma ErrorsRun(p: W.Page, paper: W.Paper, code: ErrorCode, message: string)
    ensures
      var q := W.Apply(W.Apply(W.Apply(p, paper, W.Begin(true)), paper, W.Key("code")), paper, W.Text(CodeName(code)));
      var r := if message == "" then q else W.Apply(W.Apply(q, paper, W.Key("message")), paper, W.Text(message));
      RunData(p, paper, DBox(true, ErrorEntries(code, message)))
      == W.Apply(W.Apply(W.Apply(r, paper, W.Key("retryable")), paper, W.Flag(IsRetryable(code))), paper, W.End(true))
  {
    hide W.Apply, CodeName, IsRetryable;
    var q := W.Apply(W.Apply(W.Apply(p, paper, W.Begin(true)), paper, W.Key("code")), paper, W.Text(CodeName(code)));
    var retryable := Entry("retryable", DFlag(IsRetryable(code)), NoEntries);
    var rest := if message == "" then retryable else Entry("message", DText(message), retryable);
    assert RunEntries(W.Apply(p, paper, W.Begin(true)), paper, true, ErrorEntries(code, message))
        == RunEntries(q, paper, true, rest);
    var r := if message == "" then q else W.Apply(W.Apply(q, paper, W.Key("message")), paper, W.Text(message));
    assert RunEntries(q, paper, true, rest) == RunEntries(r, paper, true, retryable);
    var end := W.Apply(W.Apply(r, paper, W.Key("retryable")), paper, W.Flag(IsRetryable(code)));
    assert RunEntries(r, paper, true, retryable) == RunEntries(end, paper, true, NoEntries);
  }

  // ----------------------------------------------------------- properties

  lemma SafeNames()
    ensures W.Escape("v") == "v" && W.Escape("kind") == "kind" && W.Escape("result") == "result"
    ensures W.Escape("id") == "id" && W.Escape("ok") == "ok" && W.Escape("payload") == "payload"
    ensures W.Escape("error") == "error" && W.Escape("code") == "code" && W.Escape("message") == "message"
    ensures W.Escape("retryable") == "retryable"
  {
    hide W.Escape;
    EscapeSafe("v");
    EscapeSafe("kind");
    EscapeSafe("result");
    EscapeSafe("id");
    EscapeSafe("ok");
    EscapeSafe("payload");
    EscapeSafe("error");
    EscapeSafe("code");
    EscapeSafe("message");
    EscapeSafe("retryable");
  }

  lemma IntegerOne()
    ensures |W.IntegerText(1)| == 1
  {
  }

  /** An envelope costs 52 bytes around the id and the payload. */
  lemma ResultSize(id: string, value: Value)
    ensures |Render(ResultData(id, value))| == 52 + |W.Escape(id)| + |ValueText(value)|
  {
    hide W.Escape, W.IntegerText, ValueText, Render;
    IntegerOne();
    SafeNames();
    RenderSize(ResultData(id, value));
    var e3 := Entry("payload", DRaw(value), NoEntries);
    var e2 := Entry("ok", DFlag(true), e3);
    var e1 := Entry("id", DText(id), e2);
    var e0 := Entry("kind", DText("result"), e1);
    assert EntriesSize(true, e3) == 10 + |ValueText(value)|;
    assert EntriesSize(true, e2) == 10 + EntriesSize(true, e3);
    assert EntriesSize(true, e1) == 8 + |W.Escape(id)| + EntriesSize(true, e2);
    assert EntriesSize(true, e0) == 16 + EntriesSize(true, e1);
    assert EntriesSize(true, Entry("v", DInt(1), e0)) == 6 + EntriesSize(true, e0);
  }

  lemma CodeNameSafe(code: ErrorCode)
    ensures IsSafe(CodeName(code)) && |CodeName(code)| <= 16
  {
    if RefusesRequest(code) {
      RefusalSafe(code);
    } else {
      FailureSafe(code);
    }
  }

  predicate RefusesRequest(code: ErrorCode) {
    code.BadRequest? || code.UnknownCommand? || code.InvalidArgument? || code.NotFound? || code.Unsupported?
  }

  lemma RefusalSafe(code: ErrorCode)
    requires RefusesRequest(code)
    ensures IsSafe(CodeName(code)) && |CodeName(code)| <= 16
  {
  }

  lemma FailureSafe(code: ErrorCode)
    requires !RefusesRequest(code)
    ensures IsSafe(CodeName(code)) && |CodeName(code)| <= 16
  {
  }

  lemma ErrorSize(id: string, code: ErrorCode, message: string)
    ensures |Render(ErrorData(id, code, message))| <= 130 + |W.Escape(id)| + |W.Escape(message)|
  {
    hide W.Escape, CodeName, W.IntegerText, IsRetryable, Render, IsSafe, SizeOf, EntriesSize;
    IntegerOne();
    SafeNames();
    var inner := ErrorEntries(code, message);
    ErrorEntriesSize(code, message);
    RenderSize(ErrorData(id, code, message));
    var e3 := Entry("error", DBox(true, inner), NoEntries);
    var e2 := Entry("ok", DFlag(false), e3);
    var e1 := Entry("id", DText(id), e2);
    var e0 := Entry("kind", DText("result"), e1);
    BoxSize(inner);
    BoxSize(Entry("v", DInt(1), e0));
    EntrySize("error", DBox(true, inner), NoEntries);
    EntrySize("ok", DFlag(false), e3);
    EntrySize("id", DText(id), e2);
    EntrySize("kind", DText("result"), e1);
    EntrySize("v", DInt(1), e0);
  }

  lemma ErrorEntriesSize(code: ErrorCode, message: string)
    ensures EntriesSize(true, ErrorEntries(code, message)) <= 57 + |W.Escape(message)|
  {
    hide W.Escape, CodeName, W.IntegerText, IsRetryable, IsSafe, SizeOf, EntriesSize;
    SafeNames();
    CodeNameSafe(code);
    EscapeSafe(CodeName(code));
    var last := Entry("retryable", DFlag(IsRetryable(code)), NoEntries);
    EntrySize("retryable", DFlag(IsRetryable(code)), NoEntries);
    EntrySize("message", DText(message), last);
    EntrySize("code", DText(CodeName(code)), if message == "" then last else Entry("message", DText(message), last));
  }
}
