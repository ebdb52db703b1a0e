/** The shared response writers of internal/app/server/handler/base.go. Each
    writes a status and a JSON body to the request context; the body of an
    error response is {"message": ..., "data": ...} with "data" only when
    supplied. */
module BaseHandler {

  import opened Wrappers
  import opened Text
  import opened Gin
  import Domain

  const InvalidRequestFormat: string := "invalid request format"

  /** The errors the handlers pass on: a domain error, the field errors of the
      request validator, or any other error, known by its text. */
  datatype HandlerError =
    | DomainFailure(e: Domain.DomainError)
    | FieldErrors(messages: seq<string>)
    | OtherFailure(text: string)
  {
    /** err.Error(): the validator joins its field messages with newlines and
        trims the result. */
    function Text(): string {
      match this
      case DomainFailure(e) => e.Error()
      case FieldErrors(ms) => TrimSpace(JoinLines(ms))
      case OtherFailure(t) => t
    }
  }

  /** Each message followed by a newline. */
  function JoinLines(ms: seq<string>): string {
    if ms == [] then "" else ms[0] + "\n" + JoinLines(ms[1..])
  }

  /** The body responseError writes: the message, and the first data value when any is given. */
  function ErrorBody(msg: string, data: seq<Json>): (j: Json)
    ensures j.JObject? && "message" in j.fields && j.fields["message"] == JString(msg)
    ensures "data" in j.fields <==> |data| > 0
    ensures |data| > 0 ==> j.fields["data"] == data[0]
    ensures j.fields.Keys <= {"message", "data"}
  {
    if |data| > 0 then JObject(map["message" := JString(msg), "data" := data[0]])
    else JObject(map["message" := JString(msg)])
  }

  /** The status and message HandleDomainError reports: a domain error's own,
      and for any other error 500 with that error's text. */
  function DomainOutcome(err: HandlerError): (r: (int, string))
    ensures r.0 in Domain.DomainStatuses
    ensures r.1 == err.Text()
    ensures err.DomainFailure? ==> r.0 == err.e.HTTPStatus()
    ensures !err.DomainFailure? ==> r.0 == Domain.StatusInternalServerError
  {
    match err
    case DomainFailure(e) => (e.HTTPStatus(), e.Error())
    case _ => (Domain.StatusInternalServerError, err.Text())
  }

  /** The data of a binding failure: the list of field messages for validator
      errors, the error text otherwise. */
  function BindingData(err: HandlerError): (d: Json)
    ensures err.FieldErrors? ==> d.JList? && |d.items| == |err.messages|
    ensures err.FieldErrors? ==> forall i :: 0 <= i < |d.items| ==> d.items[i] == JString(err.messages[i])
    ensures !err.FieldErrors? ==> d == JString(err.Text())
  {
    match err
    case FieldErrors(ms) => JList(seq(|ms|, i requires 0 <= i < |ms| => JString(ms[i])))
    case _ => JString(err.Text())
  }

  /** A non-domain error is never disguised: its own text is echoed with 500, so
      two such errors with different texts give different responses. */
  lemma UnknownErrorsEchoText(t1: string, t2: string)
    requires t1 != t2
    ensures DomainOutcome(OtherFailure(t1)) == (500, t1)
    ensures DomainOutcome(OtherFailure(t1)) != DomainOutcome(OtherFailure(t2))
  {
  }

  /** Only internal errors and non-domain errors produce a 500. */
  lemma ServerErrorOnlyForInternal(err: HandlerError)
    ensures DomainOutcome(err).0 == 500 <==>
              !err.DomainFailure? || err.e.InternalServerError?
  {
  }

  /** responseError: abort with the status and the error body. */
  method ResponseError(c: Context, code: int, msg: string, data: seq<Json>)
    modifies c
    ensures c.aborted && c.status == code && c.body == Some(ErrorBody(msg, data))
    ensures c.keys == old(c.keys) && c.responseHeaders == old(c.responseHeaders) && c.proceeded == old(c.proceeded)
  {
    c.AbortWithStatusJSON(code, ErrorBody(msg, data));
  }

  /** HandleBindingError: always 400 "invalid request format", with BindingData as data. */
  method HandleBindingError(c: Context, err: HandlerError)
    modifies c
    ensures c.aborted && c.status == 400 && c.body == Some(ErrorBody(InvalidRequestFormat, [BindingData(err)]))
    ensures c.keys == old(c.keys) && c.responseHeaders == old(c.responseHeaders) && c.proceeded == old(c.proceeded)
  {
    if err.FieldErrors? {
      var messages: seq<Json> := [];
      for k := 0 to |err.messages|
        invariant |messages| == k
        invariant forall i :: 0 <= i < k ==> messages[i] == JString(err.messages[i])
      {
        messages := messages + [JString(err.messages[k])];
      }
      assert JList(messages) == BindingData(err);
      ResponseError(c, 400, InvalidRequestFormat, [JList(messages)]);
      return;
    }
    ResponseError(c, 400, InvalidRequestFormat, [JString(err.Text())]);
  }

  /** HandleValidationError: 400 with the message and no data. */
  method HandleValidationError(c: Context, message: string)
    modifies c
    ensures c.aborted && c.status == 400 && c.body == Some(ErrorBody(message, []))
    ensures c.keys == old(c.keys) && c.responseHeaders == old(c.responseHeaders) && c.proceeded == old(c.proceeded)
  {
    ResponseError(c, 400, message, []);
  }

  /** HandleDomainError: the status and message of DomainOutcome, no data. */
  method HandleDomainError(c: Context, err: HandlerError)
    modifies c
    ensures c.aborted && c.status == DomainOutcome(err).0
    ensures c.body == Some(ErrorBody(DomainOutcome(err).1, []))
    ensures c.keys == old(c.keys) && c.responseHeaders == old(c.responseHeaders) && c.proceeded == old(c.proceeded)
  {
    if err.DomainFailure? {
      ResponseError(c, err.e.HTTPStatus(), err.e.Error(), []);
      return;
    }
    ResponseError(c, Domain.StatusInternalServerError, err.Text(), []);
  }

  /** HandleSuccess: the first data value as the body when given, otherwise the status alone. */
  method HandleSuccess(c: Context, status: int, data: seq<Json>)
    modifies c
    ensures c.status == status
    ensures |data| > 0 ==> c.body == Some(data[0])
    ensures |data| == 0 ==> c.body == old(c.body)
    ensures c.aborted == old(c.aborted) && c.keys == old(c.keys)
    ensures c.responseHeaders == old(c.responseHeaders) && c.proceeded == old(c.proceeded)
  {
    if |data| > 0 {
      c.JSON(status, data[0]);
    } else {
      c.Status(status);
    }
  }
}
