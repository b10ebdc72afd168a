/** The IP-finder custom resource: on Create or Update it looks up the NLB's
    network interfaces by description and turns each private IP into a TCP
    ingress-rule descriptor for the ALB's security group; any other request
    type reports no data. Completion is signalled through CfnResponse.Send.

    The EC2 lookup is a function parameter (`describe`) returning the listed
    interfaces or the exception it raised; the handler's observable behaviour
    is its effect log: the lookups it issued and the responses it sent. */
module PrivateIpsFinder {
  import opened Outcomes
  import opened Ec2Filters
  import opened CfnResponse

  const DEFAULT_LISTENER_PORT: int := 80

  /** A rule's port as the handler passes it through: the `listenerPort`
      property text unchanged, or the default number. */
  datatype PortValue = PropertyText(text: string) | Number(n: int)

  /** One security-group ingress descriptor. */
  datatype IngressRule = IngressRule(ipProtocol: string, cidrIp: string, fromPort: PortValue, toPort: PortValue)

  /** The `Data` sent to CloudFormation: `{}` or `{'privateIps': [...]}`. */
  datatype ResourceData = NoData | PrivateIps(rules: seq<IngressRule>)

  /** What the handler does that the outside world sees. */
  datatype Effect =
    | DescribeNetworkInterfaces(filter: Filter)
    | Respond(request: Request<ResourceData>)

  predicate IsCreateOrUpdate(requestType: string) {
    requestType == "Create" || requestType == "Update"
  }

  /** `properties['listenerPort'] or DEFAULT_LISTENER_PORT`: a missing key raises
      KeyError; an empty value falls back to the default port. */
  function ListenerPort(properties: map<string, string>): (r: Completion<PortValue>)
    ensures r.Raised? <==> "listenerPort" !in properties
    ensures r.Normal? && properties["listenerPort"] != "" ==> r.value == PropertyText(properties["listenerPort"])
    ensures r.Normal? && properties["listenerPort"] == "" ==> r.value == Number(DEFAULT_LISTENER_PORT)
  {
    if "listenerPort" !in properties then Raised("KeyError: 'listenerPort'")
    else if properties["listenerPort"] != "" then Normal(PropertyText(properties["listenerPort"]))
    else Normal(Number(DEFAULT_LISTENER_PORT))
  }

  /** One descriptor per interface, in order: TCP, the interface's address as a
      single-host CIDR, and a one-port range. */
  function IngressRules(interfaces: seq<NetworkInterface>, port: PortValue): (rules: seq<IngressRule>)
    ensures |rules| == |interfaces|
    ensures forall i :: 0 <= i < |rules| ==>
              && rules[i].ipProtocol == "tcp"
              && rules[i].cidrIp == interfaces[i].privateIpAddress + "/32"
              && rules[i].fromPort == port
              && rules[i].toPort == port
    decreases |interfaces|
  {
    if |interfaces| == 0 then []
    else
      [IngressRule("tcp", interfaces[0].privateIpAddress + "/32", port, port)]
      + IngressRules(interfaces[1..], port)
  }

  /** The envelopes of the responses in an effect log, in order. */
  function Responses(log: seq<Effect>): seq<ResponseBody<ResourceData>>
    decreases |log|
  {
    if |log| == 0 then []
    else (if log[0].Respond? then [log[0].request.envelope] else []) + Responses(log[1..])
  }

  /** The filters of the lookups in an effect log, in order. */
  function Lookups(log: seq<Effect>): seq<Filter>
    decreases |log|
  {
    if |log| == 0 then []
    else (if log[0].DescribeNetworkInterfaces? then [log[0].filter] else []) + Lookups(log[1..])
  }

  lemma {:induction false} LogAppend(a: seq<Effect>, b: seq<Effect>)
    ensures Responses(a + b) == Responses(a) + Responses(b)
    ensures Lookups(a + b) == Lookups(a) + Lookups(b)
    decreases |a|
  {
    if |a| > 0 {
      assert (a + b)[1..] == a[1..] + b;
      LogAppend(a[1..], b);
    } else {
      assert a + b == b;
    }
  }

  /** The lookup is reached: the event is a Create or Update carrying both properties. */
  predicate Reaches(event: Event) {
    && IsCreateOrUpdate(event.requestType)
    && "nlbDescription" in event.resourceProperties
    && "listenerPort" in event.resourceProperties
  }

  /** The filter the lookup uses for this event. */
  function NlbFilter(event: Event): Filter
    requires Reaches(event)
  {
    DescriptionFilter(event.resourceProperties["nlbDescription"])
  }

  /** Something in the `try` block raises: a property is missing or the lookup fails. */
  predicate Fails(event: Event, describe: Filter -> Completion<seq<NetworkInterface>>) {
    && IsCreateOrUpdate(event.requestType)
    && (!Reaches(event) || describe(NlbFilter(event)).Raised?)
  }

  /** The `try` block up to the first `send`: the effects it has and either the
      data it computed or the exception that ended it. */
  function Lookup(event: Event, describe: Filter -> Completion<seq<NetworkInterface>>)
    : (r: (seq<Effect>, Completion<ResourceData>))
    ensures Responses(r.0) == []
    ensures Reaches(event) ==> Lookups(r.0) == [NlbFilter(event)]
    ensures !Reaches(event) ==> Lookups(r.0) == []
    ensures r.1.Raised? <==> Fails(event, describe)
    ensures !IsCreateOrUpdate(event.requestType) ==> r.1 == Normal(NoData)
    ensures Reaches(event) && r.1.Normal? ==>
              var interfaces := describe(NlbFilter(event)).value;
              var port := ListenerPort(event.resourceProperties).value;
              && r.1.value.PrivateIps?
              && |r.1.value.rules| == |interfaces|
              && forall i :: 0 <= i < |interfaces| ==>
                   r.1.value.rules[i] == IngressRule("tcp", interfaces[i].privateIpAddress + "/32", port, port)
  {
    if IsCreateOrUpdate(event.requestType) then
      var properties := event.resourceProperties;
      if "nlbDescription" !in properties then ([], Raised("KeyError: 'nlbDescription'"))
      else
        match ListenerPort(properties)
        case Raised(e) => ([], Raised(e))
        case Normal(port) =>
          var filter := DescriptionFilter(properties["nlbDescription"]);
          match describe(filter)
          case Raised(e) => ([DescribeNetworkInterfaces(filter)], Raised(e))
          case Normal(interfaces) =>
            ([DescribeNetworkInterfaces(filter)], Normal(PrivateIps(IngressRules(interfaces, port))))
    else
      ([], Normal(NoData))
  }

  /** A response answers the event: identifiers copied from it, the fixed
      reason, the log stream as physical id (the handler never passes one) and
      NoEcho left false. */
  predicate Answers(b: ResponseBody<ResourceData>, event: Event, context: Context) {
    && b.stackId == event.stackId && b.requestId == event.requestId
    && b.logicalResourceId == event.logicalResourceId
    && b.physicalResourceId == context.logStreamName
    && b.reason == REASON && !b.noEcho
  }

  /** The sends after the `try` block: the SUCCESS send at the end of the block,
      then the `finally` send, whose status and data depend on whether the
      block raised (an exception resets the data to `{}`). */
  function Signal(
    event: Event,
    context: Context,
    outcome: Completion<ResourceData>,
    dumps: ResponseBody<ResourceData> -> string,
    put: Request<ResourceData> -> Completion<string>): (sends: seq<Effect>)
    ensures outcome.Normal? ==>
              && |Responses(sends)| == 2
              && Responses(sends)[0].status == Success && Responses(sends)[1].status == Success
              && Responses(sends)[0].data == outcome.value && Responses(sends)[1].data == outcome.value
    ensures outcome.Raised? ==>
              && |Responses(sends)| == 1
              && Responses(sends)[0].status == Failed
              && Responses(sends)[0].data == NoData
    ensures forall b :: b in Responses(sends) ==> Answers(b, event, context)
    ensures Lookups(sends) == []
    ensures |sends| > 0 && sends[|sends| - 1].Respond?
  {
    match outcome
    case Normal(data) =>
      var first := Send(event, context, Success, data, None, None, dumps, put);
      var last := Send(event, context, Success, data, None, None, dumps, put);
      var sends := [Respond(first.value), Respond(last.value)];
      assert sends[1..] == [Respond(last.value)] && sends[1..][1..] == [];
      assert Responses(sends[1..]) == [last.value.envelope] && Lookups(sends[1..]) == [];
      sends
    case Raised(_) =>
      var last := Send(event, context, Failed, NoData, None, None, dumps, put);
      [Respond(last.value)]
  }

  /** `lambda_handler(event, context)`. */
  function LambdaHandler(
    event: Event,
    context: Context,
    describe: Filter -> Completion<seq<NetworkInterface>>,
    dumps: ResponseBody<ResourceData> -> string,
    put: Request<ResourceData> -> Completion<string>): (log: seq<Effect>)
    // a lookup happens exactly for Create/Update events carrying both properties
    ensures Reaches(event) ==> Lookups(log) == [NlbFilter(event)]
    ensures !Reaches(event) ==> Lookups(log) == []
    // the finally block always sends last
    ensures |log| > 0 && log[|log| - 1].Respond?
    // success: two identical SUCCESS responses; failure: one FAILED response with {}
    ensures !Fails(event, describe) ==>
              && |Responses(log)| == 2
              && Responses(log)[0].status == Success && Responses(log)[1].status == Success
              && Responses(log)[0].data == Responses(log)[1].data
    ensures Fails(event, describe) ==>
              && |Responses(log)| == 1
              && Responses(log)[0].status == Failed
              && Responses(log)[0].data == NoData
    // every response answers this event
    ensures forall b :: b in Responses(log) ==> Answers(b, event, context)
  {
    var (effects, outcome) := Lookup(event, describe);
    var sends := Signal(event, context, outcome, dumps, put);
    LogAppend(effects, sends);
    effects + sends
  }

  /** The data the handler reports: `{}` for any request type other than Create
      or Update, and on a successful lookup one TCP single-host rule per listed
      interface, in order, on the listener port. */
  lemma HandlerReportsRules(
    event: Event,
    context: Context,
    describe: Filter -> Completion<seq<NetworkInterface>>,
    dumps: ResponseBody<ResourceData> -> string,
    put: Request<ResourceData> -> Completion<string>)
    ensures var responses := Responses(LambdaHandler(event, context, describe, dumps, put));
      && (!IsCreateOrUpdate(event.requestType) ==> forall b :: b in responses ==> b.data == NoData)
      && (Reaches(event) && !Fails(event, describe) ==>
            var interfaces := describe(NlbFilter(event)).value;
            var port := ListenerPort(event.resourceProperties).value;
            && responses[0].data.PrivateIps?
            && |responses[0].data.rules| == |interfaces|
            && forall i :: 0 <= i < |interfaces| ==>
                 responses[0].data.rules[i] == IngressRule("tcp", interfaces[i].privateIpAddress + "/32", port, port))
  {
  }
}
