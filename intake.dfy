/** The synchronous part of `POST /api/submit`: required-field validation,
    the shared-secret check and the immediate acknowledgement. */
module Intake {
  import opened Wrappers
  import opened JsValues

  /** The parsed request body: an object's properties. */
  type Payload = map<string, Value>

  /** The fields the handler requires, in the order it checks them. */
  const RequiredFields: seq<string> := ["email", "secret", "task", "round", "nonce", "brief", "evaluation_url"]

  /** Index of the first key whose value in the payload is falsy. */
  function FirstFalsy(p: Payload, keys: seq<string>): (r: Option<nat>)
    ensures r.None? <==> forall i :: 0 <= i < |keys| ==> Truthy(Prop(p, keys[i]))
    ensures r.Some? ==> r.value < |keys| && !Truthy(Prop(p, keys[r.value]))
    ensures r.Some? ==> forall j :: 0 <= j < r.value ==> Truthy(Prop(p, keys[j]))
  {
    if keys == [] then None
    else if !Truthy(Prop(p, keys[0])) then Some(0)
    else match FirstFalsy(p, keys[1..])
      case None => None
      case Some(i) => Some(i + 1)
  }

  /** The body of a response: `{error}` for a rejection, `{status, task, round}`
      for the acknowledgement. */
  datatype Body =
    | ErrorBody(error: string)
    | AckBody(status: string, task: Value, round: Value)

  datatype Response = Response(code: int, body: Body)

  predicate AllPresent(p: Payload) {
    forall i :: 0 <= i < |RequiredFields| ==> Truthy(Prop(p, RequiredFields[i]))
  }

  /** The response the handler sends before any background work. */
  function ImmediateResponse(p: Payload, sharedSecret: string): (r: Response)
    ensures r.code == 400 <==> !AllPresent(p)
    ensures r.code == 400 ==>
      exists i :: 0 <= i < |RequiredFields| && !Truthy(Prop(p, RequiredFields[i]))
        && (forall j :: 0 <= j < i ==> Truthy(Prop(p, RequiredFields[j])))
        && r.body == ErrorBody(RequiredFields[i] + " missing")
    ensures r.code == 403 <==> AllPresent(p) && Prop(p, "secret") != Str(sharedSecret)
    ensures r.code == 403 ==> r.body == ErrorBody("invalid secret")
    ensures r.code == 200 <==> AllPresent(p) && Prop(p, "secret") == Str(sharedSecret)
    ensures r.code == 200 ==> r.body == AckBody("accepted", Prop(p, "task"), Prop(p, "round"))
  {
    match FirstFalsy(p, RequiredFields)
    case Some(i) => Response(400, ErrorBody(RequiredFields[i] + " missing"))
    case None =>
      if Prop(p, "secret") != Str(sharedSecret) then Response(403, ErrorBody("invalid secret"))
      else Response(200, AckBody("accepted", Prop(p, "task"), Prop(p, "round")))
  }

  /** `round: 0` is falsy, so a payload whose other fields are present is
      rejected with "round missing", whatever its secret. */
  lemma RoundZeroIsMissing(p: Payload, sharedSecret: string)
    requires forall i :: 0 <= i < 3 ==> Truthy(Prop(p, RequiredFields[i]))
    requires Prop(p, "round") == Num(0)
    ensures ImmediateResponse(p, sharedSecret) == Response(400, ErrorBody("round missing"))
  {
    var r := FirstFalsy(p, RequiredFields);
    assert !Truthy(Prop(p, RequiredFields[3]));
    assert r.Some? && r.value == 3;
  }

  /** An empty string is falsy: an empty `email` is reported before anything
      else, whatever the other fields and the secret are. */
  lemma EmptyEmailIsMissing(p: Payload, sharedSecret: string)
    requires Prop(p, "email") == Str("")
    ensures ImmediateResponse(p, sharedSecret) == Response(400, ErrorBody("email missing"))
  {
    assert !Truthy(Prop(p, RequiredFields[0]));
  }
}
