/** What the sender of a request reads in the answer.

    `Respond` says which response a body gets by the steps that the router takes. Here the same is said without
    them: from the syntax tree of the body (`IsRequest`, `RequestIn`), from what the handler answers, and from the
    members that read back from the text sent. */
module RouterAnswers {
  import opened Bytes
  import opened JsonGrammar
  import opened JsonParse
  import opened JsonLookup
  import opened JsonChecked
  import opened JsonLenient
  import opened JsonRead
  import opened JsonRoundTrip
  import opened JsonMeaning
  import opened Protocol
  import opened ConversationStart
  import opened RequestRouter
  import W = JsonWriter

  // ------------------------------------------------------------ the request

  /** A string member, with its escapes undone. */
  function TextMember(items: Items, key: string): Option<string> {
    match MemberOf(items, key)
    case Some(Str(raw)) => Unescape(raw)
    case _ => None
  }

  /** A body of 1 to 2048 bytes that is a document, in which the strict walk finds nothing to refuse, with a name of
      1 to 63 bytes. */
  predicate IsRequest(body: string) {
    && 1 <= |body| <= 2048 && ParseDocument(body).Done?
    && Acceptable(ParseDocument(body).tree, "payload") && HasName(ParseDocument(body).tree.items)
  }

  predicate HasName(items: Items) {
    var name := TextMember(items, "name");
    name.Some? && 1 <= |name.value| <= 63
  }

  /** The id; one that cannot be read in full counts as absent. */
  function IdIn(items: Items): string {
    var id := TextMember(items, "id");
    if id.Some? && |id.value| <= 63 then id.value else ""
  }

  /** The id that the answer has to carry, the command, and the text that its handler is given. */
  datatype Request = Request(id: string, name: string, payload: string)

  function RequestIn(body: string): Request
    requires IsRequest(body)
  {
    var items := ParseDocument(body).tree.items;
    var payload := MemberOf(items, "payload");
    Request(IdIn(items), TextMember(items, "name").value, if payload.Some? then ValueText(payload.value) else "")
  }

  // ------------------------------------------------------------- the answer

  predicate IdReads(text: string, id: string) {
    && RawStringOf(text, "id").Some?
    && Unescape(RawStringOf(text, "id").value) == if IsPlain(id) then Some(id) else None
  }

  /** The answer says that the request failed, and for what reason; a caller is told to try again later if the device
      was busy, if something was not available, or if it took too long, and not otherwise. */
  predicate ReadsAsError(text: string, id: string, code: string, message: string) {
    && BoolOf(text, "ok") == Some(false) && IdReads(text, id) && FindSpec(text, "payload") == None
    && var error := ObjectOf(text, "error");
    && error.Some? && RawStringOf(error.value, "code").Some?
    && Unescape(RawStringOf(error.value, "code").value) == Some(code)
    && BoolOf(error.value, "retryable") == Some(code == "busy" || code == "unavailable" || code == "timeout")
    && MessageReads(error.value, message)
  }

  /** The answer says that the request succeeded, and holds the value that the handler wrote. */
  ghost predicate ReadsAsResult(text: string, id: string, payload: string) {
    && BoolOf(text, "ok") == Some(true) && IdReads(text, id) && FindSpec(text, "error") == None
    && exists v :: IsPayload(payload, v) && TextOf(text, "payload", KindOf(v)) == Some(Shown(v))
  }

  lemma Retries(code: ErrorCode)
    ensures IsRetryable(code) <==>
      CodeName(code) == "busy" || CodeName(code) == "unavailable" || CodeName(code) == "timeout"
  {
  }

  lemma ErrorReadsAs(text: string, r: Response)
    requires Sends(text, r) && r.Error?
    ensures ReadsAsError(text, r.id, CodeName(r.code), r.message)
  {
    hide Sends, ParseDocument, RawStringOf, IntegerOf, BoolOf, ObjectOf, TextOf, Unescape, FindSpec, MessageReads,
         IsPlain, CodeName, IsRetryable, IsPayload;
    ResponsesReadBack(text, r, map[]);
    Retries(r.code);
  }

  lemma ResultReadsAs(text: string, r: Response)
    requires Sends(text, r) && r.Result?
    ensures ReadsAsResult(text, r.id, r.payload)
  {
    hide Sends, ParseDocument, RawStringOf, IntegerOf, BoolOf, ObjectOf, TextOf, Unescape, FindSpec, MessageReads,
         IsPlain, CodeName, IsRetryable, IsPayload;
    ResponsesReadBack(text, r, map[]);
  }

  // ------------------------------------------------------------- theorems

  /** Without the token every request gets the same refusal, whatever the body holds and the handlers would do. */
  lemma RefusedUnauthorised(body: string, dispatch: (string, string) -> Answer, text: string)
    requires Sends(text, Respond(false, body, dispatch))
    ensures ReadsAsError(text, "", "bad_request", "X-StackChan-Token header is missing or wrong")
    ensures forall other, handlers :: Sends(text, Respond(false, other, handlers))
  {
    hide Sends, ReadsAsError;
    ErrorReadsAs(text, Respond(false, body, dispatch));
  }

  /** A document shows its text members to the lenient readers too. */
  lemma TextMembers(body: string, key: string)
    requires ParseDocument(body).Done?
    ensures
      var raw := RawStringOf(body, key);
      TextMember(ParseDocument(body).tree.items, key) == if raw.Some? then Unescape(raw.value) else None
  {
    hide ParseDocument, RawStringOf, MemberOf, Unescape, IntegerOf, BoolOf, ObjectOf;
    DocumentReads(body, key, map[]);
  }

  lemma DocumentsBegin(body: string)
    requires ParseDocument(body).Done?
    ensures StartsWithObject(body)
  {
    hide EatWs, ParseItems;
  }

  /** What the steps of the router find is what the syntax tree of the body holds. */
  lemma RequestIsRead(body: string)
    ensures IsRequest(body) <==>
      && 1 <= |body| <= 2048 && StartsWithObject(body) && CommandOf(body).Some?
      && CheckedFind(body, "payload") != Invalid
    ensures IsRequest(body) ==> RequestIn(body) == Request(IdOf(body), CommandOf(body).value, PayloadOf(body))
    ensures IsRequest(body) ==> IsPlain(IdOf(body))
  {
    hide ParseDocument, RawStringOf, Unescape, MemberOf, CheckedFind, StartsWithObject, Acceptable, TextMember,
         ValueText, IsPlain, IsDocument, DocumentText;
    if ParseDocument(body).Done? {
      TextMembers(body, "name");
      TextMembers(body, "id");
      DocumentsBegin(body);
      AcceptedWhen(body, "payload");
    }
    if CheckedFind(body, "payload") != Invalid {
      PayloadTree(body);
      DispatchedId(body);
    }
  }

  /** What the steps find in a document. */
  lemma DocumentIsRead(body: string)
    requires ParseDocument(body).Done?
    ensures StartsWithObject(body) && IdOf(body) == IdIn(ParseDocument(body).tree.items)
    ensures CommandOf(body).Some? <==> HasName(ParseDocument(body).tree.items)
  {
    hide ParseDocument, RawStringOf, Unescape, StartsWithObject, TextMember;
    TextMembers(body, "name");
    TextMembers(body, "id");
    DocumentsBegin(body);
  }

  /** A bad request is told what was wrong with it: its size, that it is no object, that it has no name, or that the
      strict walk refused it; and a document gets its id back. */
  lemma RefusalSays(body: string, dispatch: (string, string) -> Answer, text: string)
    requires Sends(text, Respond(true, body, dispatch)) && !IsRequest(body)
    ensures
      if body == "" || |body| > 2048 then ReadsAsError(text, "", "bad_request", "body is empty or too large")
      else if ParseDocument(body).Done? then
        var items := ParseDocument(body).tree.items;
        ReadsAsError(text, IdIn(items), "bad_request",
                     if HasName(items) then "request body is invalid" else "name is missing")
      else if !StartsWithObject(body) then ReadsAsError(text, "", "bad_request", "not json")
      else exists id ::
        || ReadsAsError(text, id, "bad_request", "name is missing")
        || ReadsAsError(text, id, "bad_request", "request body is invalid")
  {
    hide Sends, ReadsAsError, IsRequest, HasName, IdIn, CommandOf, IdOf, StartsWithObject, ParseDocument,
         CheckedFind, RequestIn, PayloadOf;
    RequestIsRead(body);
    ErrorReadsAs(text, Respond(true, body, dispatch));
    if ParseDocument(body).Done? {
      DocumentIsRead(body);
    }
  }

  /** The code and the message for a request that was dispatched, from what its handler answered: none when it
      succeeded and what it wrote fits its buffer with every bracket closed. */
  function FailureOf(answer: Answer): Option<(string, string)> {
    if answer.code != NoError then Some((CodeName(answer.code), ""))
    else if W.IsValidPage(W.Run(W.BLANK_PAGE, W.Sheet(4096), answer.ops)) then None
    else Some(("internal", "response too large"))
  }

  /** A result is sent if and only if the caller is authorised, the body is a request, and the handler, given the name
      and the text of the payload, succeeds with a page that is valid; it is sent with the id of the request and the
      value written. A handler that fails is quoted with its own code, under the same id; whatever is no request is a
      bad one. */
  lemma AnsweredExactly(authorised: bool, body: string, dispatch: (string, string) -> Answer, text: string)
    requires Sends(text, Respond(authorised, body, dispatch))
    ensures !authorised || !IsRequest(body) ==> exists id, message :: ReadsAsError(text, id, "bad_request", message)
    ensures authorised && IsRequest(body) ==>
      var q := RequestIn(body);
      var answer := dispatch(q.name, q.payload);
      var failure := FailureOf(answer);
      && IsPlain(q.id)
      && if failure.Some? then ReadsAsError(text, q.id, failure.value.0, failure.value.1)
         else ReadsAsResult(text, q.id, W.Run(W.BLANK_PAGE, W.Sheet(4096), answer.ops).text)
    ensures BoolOf(text, "ok") == Some(true) <==>
      && authorised && IsRequest(body)
      && FailureOf(dispatch(RequestIn(body).name, RequestIn(body).payload)).None?
  {
    hide Sends, ParseDocument, RawStringOf, Unescape, BoolOf, ObjectOf, TextOf, FindSpec, MessageReads, IdReads,
         IsRequest, RequestIn, CheckedFind, StartsWithObject, CommandOf, IdOf, PayloadOf, W.Run, W.IsValidPage,
         IsPlain, IsPayload, Shown, KindOf;
    RequestIsRead(body);
    var r := Respond(authorised, body, dispatch);
    if r.Error? {
      ErrorReadsAs(text, r);
    } else {
      ResultReadsAs(text, r);
    }
  }
}
