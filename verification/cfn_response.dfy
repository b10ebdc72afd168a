/** The CloudFormation custom-resource response helper: `send` builds the
    response envelope for a lifecycle event, serialises it, and PUTs it to the
    event's pre-signed response URL, swallowing any transport failure.

    JSON serialisation and the HTTP PUT are not part of this model; both are
    passed in as functions (`dumps`, `put`). */
module CfnResponse {
  import opened Outcomes
  import Decimal

  /** The two status values a custom resource can report. */
  datatype Status = Success | Failed {
    /** The wire text of the status, the module constants SUCCESS and FAILED. */
    function Text(): string {
      match this
      case Success => "SUCCESS"
      case Failed => "FAILED"
    }
  }

  /** The fixed `Reason` every response carries. */
  const REASON: string := "Find the IPs of the NLB to add to the Security Group of the ALB."

  /** A CloudFormation custom-resource lifecycle event. Resource properties are
      text, as CloudFormation delivers them. */
  datatype Event = Event(
    requestType: string,
    responseUrl: string,
    stackId: string,
    requestId: string,
    logicalResourceId: string,
    resourceProperties: map<string, string>)

  /** The part of the Lambda context object that `send` reads. */
  datatype Context = Context(logStreamName: string)

  /** The JSON envelope sent back to CloudFormation, before serialisation. */
  datatype ResponseBody<D> = ResponseBody(
    status: Status,
    reason: string,
    physicalResourceId: string,
    stackId: string,
    requestId: string,
    logicalResourceId: string,
    noEcho: bool,
    data: D)

  /** The two HTTP headers of the PUT. */
  datatype Headers = Headers(contentType: string, contentLength: string)

  /** The PUT request: target URL, the envelope, its serialised text, headers. */
  datatype Request<D> = Request(url: string, envelope: ResponseBody<D>, payload: string, headers: Headers)

  /** Python truthiness of an optional string argument: present and non-empty. */
  predicate Truthy(s: Option<string>) {
    s.Some? && s.value != ""
  }

  /** `send(event, context, status, data, physical_resource_id, no_echo)`.
      `physicalResourceId` and `noEcho` are None when the caller omits them.
      The PUT's own completion is discarded, so `send` always returns normally. */
  function Send<D>(
    event: Event,
    context: Context,
    status: Status,
    data: D,
    physicalResourceId: Option<string>,
    noEcho: Option<bool>,
    dumps: ResponseBody<D> -> string,
    put: Request<D> -> Completion<string>): (r: Completion<Request<D>>)
    ensures r.Normal?
    ensures r.value.url == event.responseUrl
    ensures r.value.envelope.status == status && r.value.envelope.data == data
    ensures r.value.envelope.reason == REASON
    ensures Truthy(physicalResourceId) ==> r.value.envelope.physicalResourceId == physicalResourceId.value
    ensures !Truthy(physicalResourceId) ==> r.value.envelope.physicalResourceId == context.logStreamName
    ensures r.value.envelope.stackId == event.stackId
    ensures r.value.envelope.requestId == event.requestId
    ensures r.value.envelope.logicalResourceId == event.logicalResourceId
    ensures noEcho.None? ==> !r.value.envelope.noEcho
    ensures noEcho.Some? ==> r.value.envelope.noEcho == noEcho.value
    ensures r.value.payload == dumps(r.value.envelope)
    ensures r.value.headers.contentType == ""
    ensures Decimal.IsDigits(r.value.headers.contentLength)
    ensures Decimal.ParseDecimal(r.value.headers.contentLength) == |r.value.payload|
  {
    var body := ResponseBody(
      status,
      REASON,
      if Truthy(physicalResourceId) then physicalResourceId.value else context.logStreamName,
      event.stackId,
      event.requestId,
      event.logicalResourceId,
      match noEcho case Some(b) => b case None => false,
      data);
    var payload := dumps(body);
    Decimal.ParseNatToDecimal(|payload|);
    var request := Request(event.responseUrl, body, payload, Headers("", Decimal.NatToDecimal(|payload|)));
    match put(request)
    case Normal(_) => Normal(request)
    case Raised(_) => Normal(request)
  }
}
