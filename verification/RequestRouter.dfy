/** From a request body to a response envelope.

    Authorisation is a comparison that is not modelled: its result is an input. What the handlers do is an
    oracle: for every command name and payload, a code and the calls it makes on the payload writer. The
    promise they have to keep is `KeepsPromise`. */
module RequestRouter {
  import opened Bytes
  import opened JsonGrammar
  import opened JsonLookup
  import opened JsonChecked
  import opened JsonLenient
  import opened JsonRead
  import opened JsonRoundTrip
  import opened JsonSize
  import opened JsonObjects
  import opened Protocol
  import opened Envelope
  import opened ConversationStart
  import W = JsonWriter

  const MAX_BODY_BYTES: nat := 2048
  const PAYLOAD_BYTES: nat := 4096
  const ENVELOPE_BYTES: nat := PAYLOAD_BYTES + 256
  const MAX_ID_BYTES: nat := 63
  const MAX_NAME_BYTES: nat := 63

  /** What a handler does with a command. */
  datatype Answer = Answer(code: ErrorCode, ops: seq<W.Op>)

  /** The calls a writer takes: numbers within the range of their C++ types. */
  predicate InRange(op: W.Op) {
    match op
    case Natural(n) => n <= W.MAX_UINT64
    case Integer(i) => -0x8000_0000_0000_0000 <= i < 0x8000_0000_0000_0000
    case _ => true
  }

  predicate AllInRange(ops: seq<W.Op>) { forall k | 0 <= k < |ops| :: InRange(ops[k]) }

  predicate IsPayload(text: string, v: Value) {
    IsValue(v) && ValueText(v) == if text == "" then "{}" else text
  }

  /** A handler writes one complete value, or nothing, or more than its buffer holds. */
  ghost predicate WritesOneValue(ops: seq<W.Op>) {
    var page := W.Run(W.BLANK_PAGE, W.Sheet(PAYLOAD_BYTES), ops);
    AllInRange(ops) && (W.IsValidPage(page) ==> exists v :: IsPayload(page.text, v))
  }

  /** What a handler that succeeds has written is one value; what one that fails has written is discarded. */
  ghost predicate KeepsPromise(answer: Answer) {
    AllInRange(answer.ops) && (answer.code == NoError ==> WritesOneValue(answer.ops))
  }

  /** Printing a tree is writing one value. */
  lemma PrintingIsOneValue(d: Data)
    requires Printable(d) && PrintHeight(d) <= W.MAX_DEPTH && AllInRange(OpsOf(d))
    ensures WritesOneValue(OpsOf(d)) && WritesOneValue([])
  {
    hide OpsOf, W.Run, Printable, Concrete, ValueText, AllInRange;
    W.Faithful(PAYLOAD_BYTES, OpsOf(d));
    OpsRun(W.BLANK_PAGE, W.Endless, d);
    Prints(W.BLANK_PAGE, d);
    ConcreteIsValue(d);
    ValueIsText(Concrete(d));
    assert W.BLANK_PAGE.text + ("" + Render(d)) == Render(d);
    if W.IsValidPage(W.Run(W.BLANK_PAGE, W.Sheet(PAYLOAD_BYTES), OpsOf(d))) {
      assert IsPayload(Render(d), Concrete(d));
    }
    EmptyIsPayload();
  }

  lemma ValueIsText(v: Value)
    requires IsValue(v)
    ensures ValueText(v) != ""
  {
  }

  lemma EmptyIsPayload()
    ensures IsPayload("", EMPTY_PAYLOAD) && WritesOneValue([])
  {
    assert ItemsText(true, Blank("")) == "}";
    assert IsPayload(W.Run(W.BLANK_PAGE, W.Sheet(PAYLOAD_BYTES), []).text, EMPTY_PAYLOAD);
  }

  // ------------------------------------------------------- specification

  datatype Response = Result(id: string, payload: string) | Error(id: string, code: ErrorCode, message: string)

  predicate StartsWithObject(body: string) {
    var k := EatWs(body, 0);
    k < |body| && body[k] == '{'
  }

  /** The id of a request; one that cannot be read in full counts as absent. */
  function IdOf(body: string): (id: string)
    ensures |id| <= MAX_ID_BYTES
  {
    match RawStringOf(body, "id")
    case None => ""
    case Some(raw) =>
      match Unescape(raw)
      case None => ""
      case Some(id) => if |id| <= MAX_ID_BYTES then id else ""
  }

  /** The command name; an unreadable or empty one counts as missing. */
  function CommandOf(body: string): Option<string> {
    match RawStringOf(body, "name")
    case None => None
    case Some(raw) =>
      match Unescape(raw)
      case None => None
      case Some(name) => if 1 <= |name| <= MAX_NAME_BYTES then Some(name) else None
  }

  function Respond(authorised: bool, body: string, dispatch: (string, string) -> Answer): Response {
    if !authorised then Error("", BadRequest, "X-StackChan-Token header is missing or wrong")
    else if body == "" || |body| > MAX_BODY_BYTES then Error("", BadRequest, "body is empty or too large")
    else if !StartsWithObject(body) then Error("", BadRequest, "not json")
    else if CommandOf(body).None? then Error(IdOf(body), BadRequest, "name is missing")
    else if CheckedFind(body, "payload") == Invalid then Error(IdOf(body), BadRequest, "request body is invalid")
    else
      var answer := dispatch(CommandOf(body).value, PayloadOf(body));
      var page := W.Run(W.BLANK_PAGE, W.Sheet(PAYLOAD_BYTES), answer.ops);
      if answer.code != NoError then Error(IdOf(body), answer.code, "")
      else if !W.IsValidPage(page) then Error(IdOf(body), Internal, "response too large")
      else Result(IdOf(body), page.text)
  }

  /** The bytes sent for a response. */
  ghost predicate Sends(text: string, r: Response) {
    match r
    case Result(id, payload) => exists v :: IsPayload(payload, v) && text == Render(ResultData(id, v))
    case Error(id, code, message) => text == Render(ErrorData(id, code, message))
  }

  // ------------------------------------------------------------ the router

  class Router {
    const idText: array<char>
    const nameText: array<char>
    const payloadBuffer: array<char>
    const envelopeBuffer: array<char>

    ghost predicate Valid() {
      && idText.Length == MAX_ID_BYTES + 1 && nameText.Length == 64
      && payloadBuffer.Length == PAYLOAD_BYTES && envelopeBuffer.Length == ENVELOPE_BYTES
      && idText != nameText && payloadBuffer != envelopeBuffer
      && {idText, nameText} !! {payloadBuffer, envelopeBuffer}
    }

    constructor ()
      ensures Valid() && fresh(idText) && fresh(nameText) && fresh(payloadBuffer) && fresh(envelopeBuffer)
    {
      idText := new char[MAX_ID_BYTES + 1];
      nameText := new char[64];
      payloadBuffer := new char[PAYLOAD_BYTES];
      envelopeBuffer := new char[ENVELOPE_BYTES];
    }

    /** An error envelope. It always fits, so the canned text of last resort is never sent. */
    method SendError(id: string, code: ErrorCode, message: string) returns (text: string)
      requires Valid() && |id| <= MAX_ID_BYTES && |message| <= 64
      modifies envelopeBuffer
      ensures Sends(text, Error(id, code, message))
    {
      hide Render, W.Escape;
      var writer := new W.JsonWriter(envelopeBuffer);
      WriteError(writer, id, code, message);
      EscapeAtMost(id);
      EscapeAtMost(message);
      ErrorSize(id, code, message);
      ErrorPrinted(id, code, message, ENVELOPE_BYTES, writer.State());
      if writer.overflowed || writer.depth != 0 {
        assert false;
      }
      text := envelopeBuffer[..writer.length];
    }

    /** Answer one request. Neither "envelope too large" nor the text of last resort can be reached. */
    method Route(authorised: bool, body: string, dispatch: (string, string) -> Answer) returns (text: string)
      requires Valid()
      requires forall name, payload :: KeepsPromise(dispatch(name, payload))
      modifies idText, nameText, payloadBuffer, envelopeBuffer
      ensures Sends(text, Respond(authorised, body, dispatch))
    {
      hide RawStringOf, Unescape, Sends, Render, KeepsPromise, W.Run, W.IsValidPage, FindSpec, CheckedFind,
           StartsWithObject;
      if !authorised {
        text := SendError("", BadRequest, "X-StackChan-Token header is missing or wrong");
        return;
      }
      if body == "" || |body| > MAX_BODY_BYTES {
        text := SendError("", BadRequest, "body is empty or too large");
        return;
      }
      var isObject := BeginsObject(body);
      if !isObject {
        text := SendError("", BadRequest, "not json");
        return;
      }
      var id := "";
      var rawId := JsonFindRawString(body, "id");
      if rawId.Some? {
        var written := JsonUnescape(rawId.value, idText, 0, MAX_ID_BYTES);
        if written.Some? {
          assert idText[0..0 + written.value] == idText[..written.value];
          id := idText[..written.value];
        }
      }
      assert id == IdOf(body);
      var rawName := JsonFindRawString(body, "name");
      if rawName.None? {
        text := SendError(id, BadRequest, "name is missing");
        return;
      }
      var nameWritten := JsonUnescape(rawName.value, nameText, 0, nameText.Length - 1);
      if nameWritten.None? || nameWritten.value == 0 {
        text := SendError(id, BadRequest, "name is missing");
        return;
      }
      assert nameText[0..0 + nameWritten.value] == nameText[..nameWritten.value];
      var name := nameText[..nameWritten.value];
      assert CommandOf(body) == Some(name);
      hide IdOf, CommandOf;
      text := Dispatch(id, name, body, dispatch);
    }

    /** The part of the work that follows once the body has a name: check it strictly, run the command,
        wrap its payload. */
    method Dispatch(id: string, name: string, body: string, dispatch: (string, string) -> Answer)
      returns (text: string)
      requires Valid() && id == IdOf(body) && CommandOf(body) == Some(name)
      requires body != "" && |body| <= MAX_BODY_BYTES && StartsWithObject(body)
      requires forall name, payload :: KeepsPromise(dispatch(name, payload))
      modifies payloadBuffer, envelopeBuffer
      ensures Sends(text, Respond(true, body, dispatch))
    {
      hide RawStringOf, Unescape, Sends, Render, W.Run, FindSpec, CheckedFind, StartsWithObject, IdOf, CommandOf,
           W.Escape, IsPlain, AllInRange, IsPayload;
      var found := JsonFindObjectChecked(body, "payload");
      if found == Invalid {
        text := SendError(id, BadRequest, "request body is invalid");
        return;
      }
      CheckedSpan(body, "payload");
      var payloadJson := if found.Member? then body[found.from..found.to] else "";
      var answer := dispatch(name, payloadJson);
      var payload := new W.JsonWriter(payloadBuffer);
      Perform(payload, answer.ops);
      if answer.code != NoError {
        text := SendError(id, answer.code, "");
        return;
      }
      if payload.overflowed || payload.depth != 0 {
        text := SendError(id, Internal, "response too large");
        return;
      }
      var written := payloadBuffer[..payload.length];
      ghost var v :| IsPayload(written, v);
      var envelope := new W.JsonWriter(envelopeBuffer);
      PayloadIs(written, v);
      WriteResult(envelope, id, written, v);
      DispatchedId(body);
      EscapeAtMost(id);
      ResultSize(id, v);
      ResultPrinted(id, v, ENVELOPE_BYTES, envelope.State());
      if envelope.overflowed || envelope.depth != 0 {
        assert false;
      }
      text := envelopeBuffer[..envelope.length];
      SendsResult(text, id, written, v);
    }
  }

  lemma PayloadIs(text: string, v: Value)
    requires IsPayload(text, v)
    ensures ValueText(v) == if text == "" then "{}" else text
    ensures IsValue(v)
  {
  }

  lemma SendsResult(text: string, id: string, payload: string, v: Value)
    requires IsPayload(payload, v) && text == Render(ResultData(id, v))
    ensures Sends(text, Result(id, payload))
  {
  }

  lemma CheckedSpan(s: string, key: string)
    ensures match CheckedFind(s, key)
      case Member(from, to) => from <= to <= |s|
      case _ => true
  {
    if CheckedFind(s, key) != Invalid {
      StrictDecides(s, key);
      AcceptedWhen(s, key);
    }
  }

  /** Make a handler's calls on its writer. */
  method Perform(writer: W.JsonWriter, ops: seq<W.Op>)
    requires writer.Valid() && AllInRange(ops)
    modifies writer, writer.buffer, writer.isObject
    ensures writer.Valid() && writer.State() == W.Run(old(writer.State()), writer.Size(), ops)
  {
    hide W.Apply;
    var i := 0;
    assert ops[0..] == ops;
    while i < |ops|
      invariant 0 <= i <= |ops| && writer.Valid()
      invariant W.Run(writer.State(), writer.Size(), ops[i..]) == W.Run(old(writer.State()), writer.Size(), ops)
    {
      assert ops[i..][1..] == ops[i + 1..];
      PerformOne(writer, ops[i]);
      i := i + 1;
    }
  }

  method PerformOne(writer: W.JsonWriter, op: W.Op)
    requires writer.Valid() && InRange(op)
    modifies writer, writer.buffer, writer.isObject
    ensures writer.Valid() && writer.State() == W.Apply(old(writer.State()), writer.Size(), op)
  {
    hide W.Apply;
    match op {
      case Begin(isObject) => writer.OpenBracket(isObject);
      case End(isObject) => writer.CloseBracket(isObject);
      case Key(name) => writer.WriteKey(name);
      case Text(text) => writer.WriteText(text);
      case Flag(flag) => writer.WriteFlag(flag);
      case Natural(n) => writer.WriteNatural(n);
      case Integer(i) => writer.WriteInteger(i);
      case Null => writer.WriteNull();
      case Raw(json) => writer.WriteRaw(json);
    }
  }

  /** The scan for the opening brace. */
  method BeginsObject(body: string) returns (b: bool)
    ensures b == StartsWithObject(body)
  {
    var i := 0;
    while i < |body|
      invariant 0 <= i <= |body| && EatWs(body, 0) == EatWs(body, i)
    {
      if IsWs(body[i]) {
        i := i + 1;
        continue;
      }
      return body[i] == '{';
    }
    return false;
  }

  // -------------------------------------------------------------- printing

  lemma ResultShape(id: string, v: Value)
    requires IsValue(v)
    ensures Printable(ResultData(id, v)) && PrintHeight(ResultData(id, v)) <= W.MAX_DEPTH
    ensures var es := ResultData(id, v).entries;
      && EntryOf(es, "v") == Some(DInt(1)) && EntryOf(es, "kind") == Some(DText("result"))
      && EntryOf(es, "id") == Some(DText(id)) && EntryOf(es, "ok") == Some(DFlag(true))
      && EntryOf(es, "payload") == Some(DRaw(v)) && EntryOf(es, "error") == None
  {
    assert Printable(DRaw(v));
    hide IsValue, Printable, PrintableEntries, EntryNames, EntryOf, PrintHeight, EntriesPrintHeight, IsPlain;
    var e3 := Entry("payload", DRaw(v), NoEntries);
    var e2 := Entry("ok", DFlag(true), e3);
    var e1 := Entry("id", DText(id), e2);
    var e0 := Entry("kind", DText("result"), e1);
    NoSteps();
    Scalars();
    PlainNames();
    EntryStep("payload", DRaw(v), NoEntries);
    EntryStep("ok", DFlag(true), e3);
    EntryStep("id", DText(id), e2);
    EntryStep("kind", DText("result"), e1);
    EntryStep("v", DInt(1), e0);
    assert EntryNames(Entry("v", DInt(1), e0)) == ["v", "kind", "id", "ok", "payload"];
    BoxShape(Entry("v", DInt(1), e0));
  }

  lemma ErrorsShape(code: ErrorCode, message: string)
    ensures var es := ErrorEntries(code, message);
      && Printable(DBox(true, es)) && PrintHeight(DBox(true, es)) == 1
      && EntryOf(es, "code") == Some(DText(CodeName(code)))
      && EntryOf(es, "retryable") == Some(DFlag(IsRetryable(code)))
      && EntryOf(es, "message") == (if message == "" then None else Some(DText(message)))
  {
    hide CodeName, IsRetryable, Printable, PrintableEntries, EntryNames, EntryOf, PrintHeight, EntriesPrintHeight,
         IsPlain;
    var flag, name := DFlag(IsRetryable(code)), DText(CodeName(code));
    var last := Entry("retryable", flag, NoEntries);
    NoSteps();
    Scalars();
    PlainNames();
    EntryStep("retryable", flag, NoEntries);
    EntryStep("code", name, last);
    EntryStep("message", DText(message), last);
    EntryStep("code", name, Entry("message", DText(message), last));
    assert EntryNames(Entry("code", name, last)) == ["code", "retryable"];
    assert EntryNames(Entry("code", name, Entry("message", DText(message), last))) == ["code", "message", "retryable"];
    BoxShape(ErrorEntries(code, message));
  }

  lemma ErrorShape(id: string, code: ErrorCode, message: string)
    ensures Printable(ErrorData(id, code, message)) && PrintHeight(ErrorData(id, code, message)) <= W.MAX_DEPTH
    ensures ErrorData(id, code, message).DBox? && ErrorData(id, code, message).isObject
    ensures var es := ErrorData(id, code, message).entries;
      && EntryOf(es, "v") == Some(DInt(1)) && EntryOf(es, "kind") == Some(DText("result"))
      && EntryOf(es, "id") == Some(DText(id)) && EntryOf(es, "ok") == Some(DFlag(false))
      && EntryOf(es, "error") == Some(DBox(true, ErrorEntries(code, message))) && EntryOf(es, "payload") == None
  {
    ErrorsShape(code, message);
    var inner := DBox(true, ErrorEntries(code, message));
    hide ErrorEntries, Printable, PrintableEntries, EntryNames, EntryOf, PrintHeight, EntriesPrintHeight, IsPlain;
    var e3 := Entry("error", inner, NoEntries);
    var e2 := Entry("ok", DFlag(false), e3);
    var e1 := Entry("id", DText(id), e2);
    var e0 := Entry("kind", DText("result"), e1);
    NoSteps();
    Scalars();
    PlainNames();
    EntryStep("error", inner, NoEntries);
    EntryStep("ok", DFlag(false), e3);
    EntryStep("id", DText(id), e2);
    EntryStep("kind", DText("result"), e1);
    EntryStep("v", DInt(1), e0);
    assert EntryNames(Entry("v", DInt(1), e0)) == ["v", "kind", "id", "ok", "error"];
    BoxShape(Entry("v", DInt(1), e0));
  }

  lemma Printed(d: Data, capacity: nat, page: W.Page)
    requires d.DBox? && d.isObject && Printable(d) && PrintHeight(d) <= W.MAX_DEPTH && |Render(d)| <= capacity
    requires page == RunData(W.BLANK_PAGE, W.Sheet(capacity), d)
    ensures !page.overflowed && page.stack == [] && page.text == Render(d)
  {
    hide Render, Printable, W.Run, OpsOf;
    PrintedIsAccepted(d.entries, capacity);
    OpsRun(W.BLANK_PAGE, W.Sheet(capacity), d);
  }

  lemma ErrorPrinted(id: string, code: ErrorCode, message: string, capacity: nat, page: W.Page)
    requires |Render(ErrorData(id, code, message))| <= capacity
    requires page == RunData(W.BLANK_PAGE, W.Sheet(capacity), ErrorData(id, code, message))
    ensures !page.overflowed && page.stack == [] && page.text == Render(ErrorData(id, code, message))
  {
    ErrorShape(id, code, message);
    hide Render, ErrorEntries, ErrorData;
    Printed(ErrorData(id, code, message), capacity, page);
  }

  lemma ResultPrinted(id: string, v: Value, capacity: nat, page: W.Page)
    requires IsValue(v) && |Render(ResultData(id, v))| <= capacity
    requires page == RunData(W.BLANK_PAGE, W.Sheet(capacity), ResultData(id, v))
    ensures !page.overflowed && page.stack == [] && page.text == Render(ResultData(id, v))
  {
    ResultShape(id, v);
    hide Render;
    Printed(ResultData(id, v), capacity, page);
  }

  // -------------------------------------------------------------- theorems

  lemma NothingIsPlain()
    ensures IsPlain("")
  {
  }

  /** Once the strict walk has passed the body, its id holds no byte that needs a four-digit escape. */
  lemma DispatchedId(body: string)
    requires CheckedFind(body, "payload") != Invalid
    ensures IsPlain(IdOf(body))
  {
    hide ParseDocument, MemberOf, FindSpec, IsItems, CheckedFind, Unescape, IsPlain, EatWs, LookupFrom, DocumentText,
         AllWs;
    PayloadTree(body);
    ParseDocumentSound(body);
    DocumentFound(body, "id");
    PlainMember(ParseDocument(body).tree.items, "id");
    NothingIsPlain();
  }

  /** An empty message is left out; any other reads back, unless it holds a byte that only a four-digit escape
      can write. */
  predicate MessageReads(error: string, message: string) {
    if message == "" then FindSpec(error, "message") == None
    else
      && RawStringOf(error, "message").Some?
      && Unescape(RawStringOf(error, "message").value) == if IsPlain(message) then Some(message) else None
  }

  /** Every response is one RFC 8259 object that reads back as an envelope: version 1, kind "result", the id of
      the request (unless the id held a byte that only a four-digit escape can write), and either ok with the
      payload or the error with its code, whether to retry, and its message if there is one. */
  lemma ResponsesReadBack(text: string, r: Response, overflow: Overflow)
    requires Sends(text, r)
    ensures ParseDocument(text).Done?
    ensures IntegerOf(text, "v", overflow) == Some(1)
    ensures RawStringOf(text, "kind").Some? && Unescape(RawStringOf(text, "kind").value) == Some("result")
    ensures RawStringOf(text, "id").Some?
    ensures Unescape(RawStringOf(text, "id").value) == if IsPlain(r.id) then Some(r.id) else None
    ensures BoolOf(text, "ok") == Some(r.Result?)
    ensures r.Error? ==>
      var error := ObjectOf(text, "error");
      && error.Some?
      && RawStringOf(error.value, "code").Some?
      && Unescape(RawStringOf(error.value, "code").value) == Some(CodeName(r.code))
      && BoolOf(error.value, "retryable") == Some(IsRetryable(r.code))
      && MessageReads(error.value, r.message)
      && FindSpec(text, "payload") == None
    ensures r.Result? ==>
      exists v :: IsPayload(r.payload, v) && TextOf(text, "payload", KindOf(v)) == Some(Shown(v))
                  && FindSpec(text, "error") == None
  {
    hide RawStringOf, IntegerOf, BoolOf, ObjectOf, TextOf, Unescape, FindSpec, ParseDocument, Render, EntryOf,
         IsPayload, IsPlain, CodeName, IsRetryable, MessageReads;
    match r {
      case Result(id, payload) =>
        var v :| IsPayload(payload, v) && text == Render(ResultData(id, v));
        PayloadIs(payload, v);
        ResultReads(id, v, overflow);
      case Error(id, code, message) =>
        ErrorReads(id, code, message, overflow);
    }
  }

  lemma PlainNames()
    ensures IsPlain("v") && IsPlain("kind") && IsPlain("result") && IsPlain("id") && IsPlain("ok")
    ensures IsPlain("payload") && IsPlain("error") && IsPlain("code") && IsPlain("retryable") && IsPlain("message")
  {
  }

  lemma ResultReads(id: string, v: Value, overflow: Overflow)
    requires IsValue(v)
    ensures
      var s := Render(ResultData(id, v));
      && ParseDocument(s).Done?
      && IntegerOf(s, "v", overflow) == Some(1)
      && RawStringOf(s, "kind").Some? && Unescape(RawStringOf(s, "kind").value) == Some("result")
      && RawStringOf(s, "id").Some?
      && Unescape(RawStringOf(s, "id").value) == (if IsPlain(id) then Some(id) else None)
      && BoolOf(s, "ok") == Some(true)
      && TextOf(s, "payload", KindOf(v)) == Some(Shown(v))
      && FindSpec(s, "error") == None
  {
    hide W.Escape, IsPlain, Printable, PrintHeight, Render, EntryOf, RawStringOf, IntegerOf, BoolOf, FindSpec,
         ParseDocument, Unescape, TextOf, IsValue;
    ResultShape(id, v);
    SafeNames();
    PlainNames();
    var es := ResultData(id, v).entries;
    Reads(es, "v", overflow);
    Reads(es, "kind");
    Reads(es, "id");
    Reads(es, "ok");
    Reads(es, "payload");
    Reads(es, "error");
  }

  lemma ErrorReads(id: string, code: ErrorCode, message: string, overflow: Overflow)
    ensures
      var s := Render(ErrorData(id, code, message));
      var error := ObjectOf(s, "error");
      && ParseDocument(s).Done?
      && IntegerOf(s, "v", overflow) == Some(1)
      && RawStringOf(s, "kind").Some? && Unescape(RawStringOf(s, "kind").value) == Some("result")
      && RawStringOf(s, "id").Some?
      && Unescape(RawStringOf(s, "id").value) == (if IsPlain(id) then Some(id) else None)
      && BoolOf(s, "ok") == Some(false)
      && error.Some?
      && RawStringOf(error.value, "code").Some?
      && Unescape(RawStringOf(error.value, "code").value) == Some(CodeName(code))
      && BoolOf(error.value, "retryable") == Some(IsRetryable(code))
      && MessageReads(error.value, message)
      && FindSpec(s, "payload") == None
  {
    hide W.Escape, IsPlain, Printable, PrintHeight, Render, EntryOf, RawStringOf, IntegerOf, BoolOf, FindSpec,
         ParseDocument, Unescape, TextOf, ObjectOf, CodeName, IsRetryable, ErrorEntries, IsSafe;
    ErrorShape(id, code, message);
    ErrorsShape(code, message);
    SafeNames();
    PlainNames();
    CodeNameSafe(code);
    SafeIsPlain(CodeName(code));
    var es := ErrorData(id, code, message).entries;
    var inner := ErrorEntries(code, message);
    Reads(es, "v", overflow);
    Reads(es, "kind");
    Reads(es, "id");
    Reads(es, "ok");
    Reads(es, "error");
    Reads(es, "payload");
    Reads(inner, "code");
    Reads(inner, "retryable");
    Reads(inner, "message");
  }

  /** A dispatched request gets its own id back, whatever the handler did; on every path the id is the
      request's own or, when it could not be read in full, empty. */
  lemma IdComesBack(body: string, dispatch: (string, string) -> Answer, text: string)
    ensures
      && Sends(text, Respond(true, body, dispatch)) && StartsWithObject(body) && |body| <= MAX_BODY_BYTES
      && CommandOf(body).Some? && CheckedFind(body, "payload") != Invalid
      ==> RawStringOf(text, "id").Some? && Unescape(RawStringOf(text, "id").value) == Some(IdOf(body))
  {
    hide Sends, IsPlain, RawStringOf, Unescape, CheckedFind, CommandOf, IdOf, W.Run, ParseDocument, IntegerOf, BoolOf,
         ObjectOf, TextOf, FindSpec, MessageReads, IsPayload, CodeName, IsRetryable, PayloadOf;
    if CheckedFind(body, "payload") != Invalid && Sends(text, Respond(true, body, dispatch)) {
      DispatchedId(body);
      ResponsesReadBack(text, Respond(true, body, dispatch), map[]);
    }
  }
}
