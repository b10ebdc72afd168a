/** The target-group updater: it makes the NLB target group's registered IPs
    equal to the ALB's current private IPs. It registers every ALB IP at the
    target port and deregisters the registered IPs that are no longer ALB IPs,
    issuing the deregistration only when there is something to remove.

    The two lookups' answers are inputs; every SDK call the handler issues is
    recorded, in order, as a Call. The target group itself is modelled as the
    set of registered IP ids. */
module TargetGroupUpdater {
  import opened Ec2Filters

  /** The invocation event. `targetPort` is already the integer `int(port)` yields. */
  datatype Event = Event(targetPort: int, albDescription: string, nlbTargetGroupArn: string)

  /** A target-group member: an IP id and a port. */
  datatype Target = Target(id: string, port: int)

  /** One entry of `describe_target_health`'s `TargetHealthDescriptions`. */
  datatype TargetHealthDescription = TargetHealthDescription(target: Target)

  /** The SDK calls the handler issues. */
  datatype Call =
    | DescribeNetworkInterfaces(filter: Filter)
    | DescribeTargetHealth(arn: string)
    | RegisterTargets(arn: string, targets: seq<Target>)
    | DeregisterTargets(arn: string, targets: seq<Target>)

  function ToSet(xs: seq<string>): set<string> {
    set x | x in xs
  }

  function Ids(targets: seq<Target>): set<string> {
    set t | t in targets :: t.id
  }

  /** The ALB's private IPs: one per listed interface, in order. */
  function AlbIps(interfaces: seq<NetworkInterface>): (ips: seq<string>)
    ensures |ips| == |interfaces|
    ensures forall i :: 0 <= i < |ips| ==> ips[i] == interfaces[i].privateIpAddress
    decreases |interfaces|
  {
    if |interfaces| == 0 then [] else [interfaces[0].privateIpAddress] + AlbIps(interfaces[1..])
  }

  /** The currently registered IPs: the target id of each health description, in order. */
  function CurrentIps(health: seq<TargetHealthDescription>): (ips: seq<string>)
    ensures |ips| == |health|
    ensures forall i :: 0 <= i < |ips| ==> ips[i] == health[i].target.id
    decreases |health|
  {
    if |health| == 0 then [] else [health[0].target.id] + CurrentIps(health[1..])
  }

  /** One target per IP, in order, all at the given port. */
  function CreateTargets(ips: seq<string>, port: int): (targets: seq<Target>)
    ensures |targets| == |ips|
    ensures forall i :: 0 <= i < |targets| ==> targets[i] == Target(ips[i], port)
    ensures Ids(targets) == ToSet(ips)
    ensures forall t :: t in targets ==> t.port == port
    decreases |ips|
  {
    if |ips| == 0 then [] else [Target(ips[0], port)] + CreateTargets(ips[1..], port)
  }

  /** The registered IPs that are not ALB IPs: `set(current_ips) - set(alb_ips)`. */
  function StaleIps(current: seq<string>, alb: seq<string>): (stale: set<string>)
    ensures forall ip :: ip in stale <==> ip in current && ip !in alb
    ensures stale !! ToSet(alb)
  {
    ToSet(current) - ToSet(alb)
  }

  /** Iterating a Python set: every element once, in an order the model does not fix. */
  method SetToSeq(s: set<string>) returns (xs: seq<string>)
    ensures |xs| == |s|
    ensures ToSet(xs) == s
    ensures forall i, j :: 0 <= i < j < |xs| ==> xs[i] != xs[j]
  {
    xs := [];
    var rest := s;
    while rest != {}
      invariant rest <= s
      invariant forall x :: x in xs <==> x in s && x !in rest
      invariant |xs| + |rest| == |s|
      invariant forall i, j :: 0 <= i < j < |xs| ==> xs[i] != xs[j]
      decreases |rest|
    {
      var x :| x in rest;
      xs := xs + [x];
      rest := rest - {x};
    }
  }

  /** The call removes none of the given IPs. */
  predicate Keeps(call: Call, ips: set<string>) {
    call.DeregisterTargets? ==> Ids(call.targets) !! ips
  }

  /** The effect of one call on the set of registered IPs. */
  function Apply(members: set<string>, call: Call): set<string> {
    match call
    case RegisterTargets(_, targets) => members + Ids(targets)
    case DeregisterTargets(_, targets) => members - Ids(targets)
    case _ => members
  }

  /** The registered IPs after a sequence of calls. */
  function ApplyAll(members: set<string>, calls: seq<Call>): set<string>
    decreases |calls|
  {
    if |calls| == 0 then members else ApplyAll(Apply(members, calls[0]), calls[1..])
  }

  /** The calls the handler issues once the stale IPs have been put in the order
      `order` in which the set iteration yields them. */
  function Plan(event: Event, albIps: seq<string>, currentIps: seq<string>, order: seq<string>): seq<Call> {
    var arn := event.nlbTargetGroupArn;
    var prefix := [
      DescribeNetworkInterfaces(DescriptionFilter(event.albDescription)),
      DescribeTargetHealth(arn),
      RegisterTargets(arn, CreateTargets(albIps, event.targetPort))];
    if |StaleIps(currentIps, albIps)| > 0 then prefix + [DeregisterTargets(arn, CreateTargets(order, event.targetPort))]
    else prefix
  }

  /** Starting from the registered IPs, the planned calls leave exactly the ALB IPs registered. */
  lemma PlanReconciles(event: Event, albIps: seq<string>, currentIps: seq<string>, order: seq<string>)
    requires ToSet(order) == StaleIps(currentIps, albIps)
    ensures ApplyAll(ToSet(currentIps), Plan(event, albIps, currentIps, order)) == ToSet(albIps)
  {
    var calls := Plan(event, albIps, currentIps, order);
    var members := ToSet(currentIps);
    var registered := members + ToSet(albIps);
    assert calls[1..][1..] == calls[2..];
    assert calls[2..][1..] == calls[3..];
    assert ApplyAll(members, calls) == ApplyAll(members, calls[1..]);
    assert ApplyAll(members, calls[1..]) == ApplyAll(members, calls[2..]);
    assert ApplyAll(members, calls[2..]) == ApplyAll(registered, calls[3..]);
    if |calls| == 4 {
      assert calls[3..][1..] == [];
      assert ApplyAll(registered, calls[3..]) == registered - StaleIps(currentIps, albIps);
    }
  }

  /** The plan describes the ALB interfaces and the target health first, then
      registers one target per ALB IP, in order, at the target port. */
  lemma PlanRegisters(event: Event, albInterfaces: seq<NetworkInterface>, currentIps: seq<string>, order: seq<string>)
    ensures var calls := Plan(event, AlbIps(albInterfaces), currentIps, order);
      && 3 <= |calls| <= 4
      && calls[0] == DescribeNetworkInterfaces(DescriptionFilter(event.albDescription))
      && calls[1] == DescribeTargetHealth(event.nlbTargetGroupArn)
      && calls[2].RegisterTargets? && calls[2].arn == event.nlbTargetGroupArn
      && |calls[2].targets| == |albInterfaces|
      && forall i :: 0 <= i < |albInterfaces| ==>
           calls[2].targets[i] == Target(albInterfaces[i].privateIpAddress, event.targetPort)
  {
  }

  /** The plan deregisters exactly when there are stale IPs. */
  lemma PlanDeregistersIffStale(event: Event, albIps: seq<string>, currentIps: seq<string>, order: seq<string>)
    ensures |Plan(event, albIps, currentIps, order)| == 4 <==> StaleIps(currentIps, albIps) != {}
  {
  }

  /** The planned deregistration removes each stale IP once, at the target port,
      and so removes no ALB IP. */
  lemma PlanDeregisters(event: Event, albIps: seq<string>, currentIps: seq<string>, order: seq<string>)
    requires ToSet(order) == StaleIps(currentIps, albIps)
    requires |order| == |StaleIps(currentIps, albIps)|
    ensures var calls := Plan(event, albIps, currentIps, order);
      && (|calls| == 4 ==>
            && calls[3].DeregisterTargets? && calls[3].arn == event.nlbTargetGroupArn
            && Ids(calls[3].targets) == StaleIps(currentIps, albIps)
            && |calls[3].targets| == |StaleIps(currentIps, albIps)|
            && forall t :: t in calls[3].targets ==> t.port == event.targetPort)
      && forall i :: 0 <= i < |calls| ==> Keeps(calls[i], ToSet(albIps))
  {
    var calls := Plan(event, albIps, currentIps, order);
    var stale := StaleIps(currentIps, albIps);
    if |calls| == 4 {
      assert Ids(calls[3].targets) == stale;
    }
    forall i | 0 <= i < |calls| ensures Keeps(calls[i], ToSet(albIps)) {
      if i == 3 {
        assert Ids(calls[3].targets) == stale;
      }
    }
  }

  /** Running the handler again once the target group holds exactly the ALB IPs
      issues no deregistration and leaves the membership unchanged. */
  lemma SecondRunIsQuiet(event: Event, albIps: seq<string>, currentIps: seq<string>, order: seq<string>)
    requires ToSet(currentIps) == ToSet(albIps)
    ensures |Plan(event, albIps, currentIps, order)| == 3
    ensures ApplyAll(ToSet(currentIps), Plan(event, albIps, currentIps, order)) == ToSet(currentIps)
  {
    assert StaleIps(currentIps, albIps) == {};
    assert Plan(event, albIps, currentIps, order) == Plan(event, albIps, currentIps, []);
    PlanReconciles(event, albIps, currentIps, []);
  }

  /** `lambda_handler(event, context)`, given what the ALB interface lookup and the
      target-health lookup return. */
  method LambdaHandler(
    event: Event,
    albInterfaces: seq<NetworkInterface>,
    health: seq<TargetHealthDescription>) returns (calls: seq<Call>)
    ensures 3 <= |calls| <= 4
    ensures calls[0] == DescribeNetworkInterfaces(DescriptionFilter(event.albDescription))
    ensures calls[1] == DescribeTargetHealth(event.nlbTargetGroupArn)
    // every ALB IP is registered, in order, at the target port
    ensures calls[2].RegisterTargets? && calls[2].arn == event.nlbTargetGroupArn
    ensures |calls[2].targets| == |albInterfaces|
    ensures forall i :: 0 <= i < |albInterfaces| ==>
              calls[2].targets[i] == Target(albInterfaces[i].privateIpAddress, event.targetPort)
    // a deregistration is issued exactly when some registered IP is no longer an ALB IP
    ensures |calls| == 4 <==> StaleIps(CurrentIps(health), AlbIps(albInterfaces)) != {}
    ensures |calls| == 4 ==>
              && calls[3].DeregisterTargets? && calls[3].arn == event.nlbTargetGroupArn
              && Ids(calls[3].targets) == StaleIps(CurrentIps(health), AlbIps(albInterfaces))
              && |calls[3].targets| == |StaleIps(CurrentIps(health), AlbIps(albInterfaces))|
              && forall t :: t in calls[3].targets ==> t.port == event.targetPort
    // no ALB IP is ever deregistered
    ensures forall i :: 0 <= i < |calls| ==> Keeps(calls[i], ToSet(AlbIps(albInterfaces)))
    // afterwards the target group holds exactly the ALB IPs
    ensures ApplyAll(ToSet(CurrentIps(health)), calls) == ToSet(AlbIps(albInterfaces))
  {
    var albIps := AlbIps(albInterfaces);
    var currentIps := CurrentIps(health);
    var stale := StaleIps(currentIps, albIps);
    var order: seq<string> := [];
    if |stale| > 0 {
      order := SetToSeq(stale);
    }
    calls := Plan(event, albIps, currentIps, order);
    PlanRegisters(event, albInterfaces, currentIps, order);
    PlanDeregistersIffStale(event, albIps, currentIps, order);
    PlanDeregisters(event, albIps, currentIps, order);
    PlanReconciles(event, albIps, currentIps, order);
  }
}
