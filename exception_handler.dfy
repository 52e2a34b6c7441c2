/** The cross-cutting failure translator: which failures become which HTTP
    status and body. */
module ExceptionHandler {
  import opened Values
  import opened Constraints

  const BadRequest := 400
  const NotFound := 404
  const Conflict := 409

  /** The failures that reach the translator. `NotFoundInApp` covers both the
      project and the vacancy not-found exceptions, `AlreadyExists` the
      duplicate-name one, `MethodArgumentNotValid` a request body that broke
      its constraints; `Unmapped` is any other failure, which no handler
      takes. */
  datatype Exception =
    | NotFoundInApp(message: string)
    | AlreadyExists(message: string)
    | MethodArgumentNotValid(errors: seq<FieldError>)
    | Unmapped(message: string)

  datatype Body = Message(text: string) | FieldMessages(messages: map<string, string>)

  datatype Response = Response(status: int, body: Body)

  /** The field-to-message map built from the errors in list order: each
      error puts its field, overwriting what an earlier error put there. */
  function FoldErrors(errors: seq<FieldError>): (messages: map<string, string>) {
    if errors == [] then map[]
    else
      var last := errors[|errors| - 1];
      FoldErrors(errors[..|errors| - 1])[last.field := last.message]
  }

  /** The map's keys are exactly the fields the errors name. */
  lemma {:induction false} FoldErrorsKeys(errors: seq<FieldError>)
    ensures FoldErrors(errors).Keys == FieldsOf(errors)
  {
    if errors != [] {
      var init := errors[..|errors| - 1];
      FoldErrorsKeys(init);
      assert errors == init + [errors[|errors| - 1]];
      FieldsOfAppend(init, [errors[|errors| - 1]]);
    }
  }

  /** The last error on a field decides that field's message. */
  lemma {:induction false} FoldErrorsLastWins(errors: seq<FieldError>, i: nat)
    requires i < |errors|
    requires forall j :: i < j < |errors| ==> errors[j].field != errors[i].field
    ensures errors[i].field in FoldErrors(errors)
    ensures FoldErrors(errors)[errors[i].field] == errors[i].message
  {
    if i < |errors| - 1 {
      FoldErrorsLastWins(errors[..|errors| - 1], i);
    }
  }

  /** Conversely, every message in the map is that of the last error on its
      field; `i` is that error's position. */
  lemma {:induction false} FoldErrorsValueIsLast(errors: seq<FieldError>, field: string) returns (i: nat)
    requires field in FoldErrors(errors)
    ensures i < |errors| && errors[i].field == field
    ensures errors[i].message == FoldErrors(errors)[field]
    ensures forall j :: i < j < |errors| ==> errors[j].field != field
  {
    var n := |errors| - 1;
    if errors[n].field == field {
      i := n;
    } else {
      var init := errors[..n];
      i := FoldErrorsValueIsLast(init, field);
      assert errors[i] == init[i];
    }
  }

  /** `handleNotFoundException`: the failure's message with 404. */
  function HandleNotFoundException(message: string): (r: Response) {
    Response(NotFound, Message(message))
  }

  /** `handlerAlreadyExistsException`: the failure's message with 409. */
  function HandlerAlreadyExistsException(message: string): (r: Response) {
    Response(Conflict, Message(message))
  }

  /** `handleValidationExceptions`: starting from an empty map, put each
      error's field and message in list order; answer 400 with the map. */
  method HandleValidationExceptions(errors: seq<FieldError>) returns (r: Response)
    ensures r.status == BadRequest && r.body.FieldMessages?
    ensures r.body.messages == FoldErrors(errors)
    ensures r.body.messages.Keys == FieldsOf(errors)
  {
    var messages: map<string, string> := map[];
    for i := 0 to |errors|
      invariant messages == FoldErrors(errors[..i])
    {
      assert errors[..i + 1][..i] == errors[..i];
      messages := messages[errors[i].field := errors[i].message];
    }
    assert errors[..|errors|] == errors;
    FoldErrorsKeys(errors);
    r := Response(BadRequest, FieldMessages(messages));
  }

  /** The translator as a whole: the handler registered for the failure's
      kind answers, and a failure of no registered kind gets no answer here. */
  method Handle(ex: Exception) returns (r: Option<Response>)
    ensures r.None? <==> ex.Unmapped?
    ensures r.Some? ==> (r.value.status == NotFound <==> ex.NotFoundInApp?)
    ensures r.Some? ==> (r.value.status == Conflict <==> ex.AlreadyExists?)
    ensures r.Some? ==> (r.value.status == BadRequest <==> ex.MethodArgumentNotValid?)
    ensures ex.NotFoundInApp? || ex.AlreadyExists? ==> r.value.body == Message(ex.message)
    ensures ex.MethodArgumentNotValid? ==> r.value.body == FieldMessages(FoldErrors(ex.errors))
  {
    match ex
    case NotFoundInApp(message) =>
      r := Some(HandleNotFoundException(message));
    case MethodArgumentNotValid(errors) =>
      var response := HandleValidationExceptions(errors);
      r := Some(response);
    case AlreadyExists(message) =>
      r := Some(HandlerAlreadyExistsException(message));
    case Unmapped(_) =>
      r := None;
  }
}
