# NLB/ALB bridge — a Dafny model

This project models the logic of two AWS Lambda functions. They let a Network
Load Balancer (NLB) front an Application Load Balancer (ALB):

- **IP finder** (`nlb_private_ips_finder`). This is a CloudFormation custom
  resource. On `Create` or `Update` it looks up the NLB's elastic network
  interfaces by description. It turns each private IP into a TCP ingress-rule
  descriptor (`ip/32`, one port: the `listenerPort` property, or 80 when that
  property is empty). It then reports back to CloudFormation. Any other request
  type reports `{}`.
- **CloudFormation response helper** (`cfnresponse.send`). It builds the
  response envelope, serialises it, sets `content-length` to the length of the
  serialised text, and PUTs it to the event's response URL. A failed PUT is
  swallowed.
- **Target-group updater** (`nlb_target_group_updater`). It looks up the ALB's
  current private IPs and the IPs registered in the NLB target group. It
  registers every ALB IP at the target port. It deregisters the registered IPs
  that are no longer ALB IPs, and only does so when there are any.

Every AWS SDK answer is an input of the model. Every SDK call, and every
response sent to CloudFormation, is recorded in an effect log. The target
group is modelled as the set of its registered IPs: a registration adds IPs
and a deregistration removes them. Over that state the updater is shown to
leave exactly the ALB IPs registered, and never to remove an ALB IP.

The IP finder's `try`/`except`/`finally` is modelled as written. A run that
succeeds sends `SUCCESS` twice with the same data: once at the end of the
`try` block and once in `finally`. A run in which a property is missing or the
lookup raises sends exactly one `FAILED`, with `{}`.

Modules, one per file:

| file | module | models |
|---|---|---|
| `outcomes.dfy` | `Outcomes` | `Option` (Python `None`) and `Completion` (a call returns or raises) |
| `decimal.dfy` | `Decimal` | `str()` of a natural number, and reading it back |
| `ec2_filters.dfy` | `Ec2Filters` | the `description` wildcard filter both handlers build, and its meaning |
| `cfn_response.dfy` | `CfnResponse` | `cfnresponse.send` |
| `private_ips_finder.dfy` | `PrivateIpsFinder` | the IP finder's `lambda_handler` |
| `target_group_updater.dfy` | `TargetGroupUpdater` | the target-group updater's `lambda_handler` |

## Model

| member | source | states |
|---|---|---|
| Ec2Filters.DescriptionFilter | nlb_target_group_updater/nlb_target_group_updater.py:40-45 | the filter is on the `description` field with the single value `'*' + description + '*'`; for a description without wildcards it matches a field exactly when the description occurs in it |
| Ec2Filters.DescriptionPatternMeaning | nlb_private_ips_finder/nlb_private_ips_finder.py:18-23 | the pattern `*d*` matches a string if and only if `d` is a substring of it, for every wildcard-free `d` |
| Decimal.NatToDecimal | nlb_private_ips_finder/cfnresponse.py:35 | `str(n)` of a length is a non-empty digit string with no leading zero (and is `"0"` for zero) |
| Decimal.ParseNatToDecimal | nlb_private_ips_finder/cfnresponse.py:35 | reading the decimal text back gives the number it was made from |
| CfnResponse.Send | nlb_private_ips_finder/cfnresponse.py:15-44 | the body carries the given status and data and the fixed reason; the physical id is the argument when it is non-empty, else the log stream name; stack, request and logical ids are copied from the event; `NoEcho` is the argument or false; the PUT goes to the response URL with the serialised body; `content-type` is empty and `content-length` reads back as the body's length; `send` returns normally whatever the PUT does |
| PrivateIpsFinder.ListenerPort | nlb_private_ips_finder/nlb_private_ips_finder.py:5-15 | a missing `listenerPort` raises; an empty one gives the default 80; otherwise the property value is used as given |
| PrivateIpsFinder.IngressRules | nlb_private_ips_finder/nlb_private_ips_finder.py:24-30 | one descriptor per interface, in order, each `tcp` with `CidrIp = ip + '/32'` and `FromPort = ToPort = listener port` |
| PrivateIpsFinder.Lookup | nlb_private_ips_finder/nlb_private_ips_finder.py:12-33 | a lookup with the NLB description filter is issued exactly for Create/Update events that carry both properties; the block raises exactly when a property is missing or the lookup raises; other request types yield `{}`; a successful lookup yields one rule per interface |
| PrivateIpsFinder.Signal | nlb_private_ips_finder/nlb_private_ips_finder.py:34-42 | without an exception, two `SUCCESS` responses with the computed data; with one, a single `FAILED` response with `{}`; the last effect is a response; every response answers the event |
| PrivateIpsFinder.LambdaHandler | nlb_private_ips_finder/nlb_private_ips_finder.py:8-42 | lookups happen exactly for Create/Update events that carry both properties; a run that does not raise sends `SUCCESS` twice with the same data; a run that raises sends exactly one `FAILED` with `{}`; the final effect is always a response; every response carries the event's identifiers, the fixed reason, the log stream as physical id and `NoEcho` false |
| PrivateIpsFinder.HandlerReportsRules | nlb_private_ips_finder/nlb_private_ips_finder.py:10-33 | request types other than Create/Update report `{}`; a successful lookup reports exactly one TCP `/32` descriptor per interface, in order, on the listener port |
| TargetGroupUpdater.AlbIps | nlb_target_group_updater/nlb_target_group_updater.py:46 | the ALB IPs are the interfaces' private IPs, one per interface, in order |
| TargetGroupUpdater.CurrentIps | nlb_target_group_updater/nlb_target_group_updater.py:53-55 | the registered IPs are the `Target.Id` of each health description, in order, same length |
| TargetGroupUpdater.CreateTargets | nlb_target_group_updater/nlb_target_group_updater.py:49-50 | one target per IP, in order, each at the given port; the targets' ids are exactly the IPs |
| TargetGroupUpdater.StaleIps | nlb_target_group_updater/nlb_target_group_updater.py:20 | an IP is stale if and only if it is registered and not an ALB IP; the stale set is disjoint from the ALB IPs |
| TargetGroupUpdater.SetToSeq | nlb_target_group_updater/nlb_target_group_updater.py:24 | iterating the stale set yields each of its elements exactly once |
| TargetGroupUpdater.PlanRegisters | nlb_target_group_updater/nlb_target_group_updater.py:7-18 | the handler first looks up the ALB interfaces with the description filter, then the target health of the group, then registers one target per ALB IP, in order, at the target port |
| TargetGroupUpdater.PlanDeregistersIffStale | nlb_target_group_updater/nlb_target_group_updater.py:20-25 | a deregistration is issued if and only if some registered IP is not an ALB IP |
| TargetGroupUpdater.PlanDeregisters | nlb_target_group_updater/nlb_target_group_updater.py:20-25 | the deregistration names each stale IP once, at the same target port as the registration, and no call removes an ALB IP |
| TargetGroupUpdater.PlanReconciles | nlb_target_group_updater/nlb_target_group_updater.py:15-25 | with registration as set union and deregistration as set difference, the group afterwards holds exactly the ALB IPs |
| TargetGroupUpdater.SecondRunIsQuiet | nlb_target_group_updater/nlb_target_group_updater.py:15-25 | once the group holds exactly the ALB IPs, a second run issues no deregistration and leaves the membership unchanged |
| TargetGroupUpdater.LambdaHandler | nlb_target_group_updater/nlb_target_group_updater.py:4-25 | the whole call sequence: lookups, registration of every ALB IP in order at the target port, deregistration exactly of the stale IPs and only when there are some, no ALB IP removed, and final membership equal to the ALB IPs |

## Left out

- AWS SDK clients and calls (`describe_network_interfaces`, `describe_target_health`, `register_targets`, `deregister_targets`) are foreign services. Their answers are inputs, and their calls are entries in an effect log.
- `MaxResults=100`: only one page of interfaces is ever read, so the interface list is taken as given and paging is not modelled.
- `json.dumps` and the HTTPS PUT through `botocore.vendored.requests` are function parameters of `CfnResponse.Send`. The serialised format is not modelled, only its length's relation to `content-length`.
- `print` logging, and every part of the Lambda context other than `log_stream_name`.
- `TargetGroupUpdater.LambdaHandler`: `targetPort` is taken to be an integer already. `int(port)` on text and its parse failures are not modelled.
- `TargetGroupUpdater.LambdaHandler`: a missing event key in `__get_parameters_from`, and an exception raised by an SDK call, are not modelled. The source does not handle them, and the Lambda runtime reports them.
- `TargetGroupUpdater.PlanReconciles`: the target group is modelled as a set of IP ids. Ports are ignored, so a target left registered at a previous port is not visible in the model.
- `PrivateIpsFinder.ListenerPort`: resource properties are modelled as text, as CloudFormation delivers them. Python truthiness of non-text values (numbers, `null`) is not modelled.
- `PrivateIpsFinder.LambdaHandler`: `send` is modelled as never raising, because its event keys are always present and serialisation is total. So the path in which the first `SUCCESS` send itself raises, and is followed by a `FAILED` send, is not modelled. A missing `RequestType` key is not modelled either.
- `Ec2Filters.GlobMatch` is this model's reading of EC2 filter wildcards (`*` and `?`, case-sensitive). It describes the provider, not the repository.
