/**
 Commands, the lines a device is sent, and what a policy read back afterwards is
 allowed to claim (apps/api/app/execute/live.py, guard.py and render.py).
 */
module Live {
  import opened Wrappers
  import opened Sequences
  import opened AclPolicy
  import opened Addresses
  import opened Rollback

  /** `[no] access-list ACL [line N] BODY`, any other text, or nothing. */
  datatype Command =
    | Blank
    | Other(text: string)
    | Acl(removal: bool, acl: string, line: Option<int>, body: string)

  /** The shared rule parser: `parse_acl_command` on the part after any `no`. */
  type Parser = string -> Option<Body>

  datatype ChangeAction = ChangeAction(
    device: string, command: Command, rollback: Command, position: Option<int>,
    verified: bool, rollbackVerified: bool)

  function ParseCommand(parse: Parser, command: Command): Option<Body> {
    match command
    case Blank => None
    case Other(text) => parse(text)
    case Acl(_, _, _, body) => parse(body)
  }

  /** The position is materialised into an access-list line that does not state one. */
  function Render(command: Command, position: Option<int>): Command {
    if command.Acl? && command.line == None then command.(line := position) else command
  }

  const UNMODELLED := Body(Unparsed, "ip", AnyHost, AnyHost, None)

  /** A device's policy read back: a body that does not parse is kept as an unmodelled rule. */
  function ReadDevice(fleet: Fleet, device: string, parse: Parser): seq<AclRule> {
    if device in fleet then
      var rules := fleet[device];
      seq(|rules|, i requires 0 <= i < |rules| =>
        AclRule(rules[i].line, parse(rules[i].body).GetOr(UNMODELLED), rules[i].acl))
    else []
  }

  // ---------------------------------------------------------------------
  // The same rule, whatever its spelling
  // ---------------------------------------------------------------------

  predicate SameEndpoint(a: Spec, b: Spec) {
    match (a, b)
    case (AnyHost, AnyHost) => true
    case (Net(x, p), Net(y, q)) => p == q && SameBlock(x, y, p)
    case (Malformed(s), Malformed(t)) => s == t
    case _ => false
  }

  predicate SameRule(a: Body, b: Body) {
    && a.action == b.action && a.proto == b.proto && a.port == b.port
    && SameEndpoint(a.src, b.src) && SameEndpoint(a.dst, b.dst)
  }

  /** Being counted as the same is an equivalence. */
  lemma SameRuleIsEquivalence(a: Body, b: Body, c: Body)
    ensures SameRule(a, a)
    ensures SameRule(a, b) == SameRule(b, a)
    ensures SameRule(a, b) && SameRule(b, c) ==> SameRule(a, c)
  {
  }

  /** Endpoints are the same exactly when they stand for the same hosts, or are the same unreadable text. */
  lemma SameEndpointExactlyWhen(a: Spec, b: Spec)
    ensures SameEndpoint(a, b) <==> NamesSame(a, b)
  {
    match (a, b)
    case (Net(x, p), Net(y, q)) =>
      if NamesSame(a, b) {
        SameHostsSamePrefix(x, p, y, q);
        assert Contains(a, V4(x));
      }
    case (AnyHost, Net(_, _)) => assert Contains(a, NotV4("")) && !Contains(b, NotV4(""));
    case (Net(_, _), AnyHost) => assert Contains(b, NotV4("")) && !Contains(a, NotV4(""));
    case _ =>
  }

  /** Two rules say the same: the same action, protocol and port, for the same hosts. */
  ghost predicate SameMeaning(a: Body, b: Body) {
    && a.action == b.action && a.proto == b.proto && a.port == b.port
    && NamesSame(a.src, b.src) && NamesSame(a.dst, b.dst)
  }

  lemma SameRuleExactlyWhen(a: Body, b: Body)
    ensures SameRule(a, b) <==> SameMeaning(a, b)
  {
    SameEndpointExactlyWhen(a.src, b.src);
    SameEndpointExactlyWhen(a.dst, b.dst);
    hide SameEndpoint, NamesSame;
  }

  /** Rules counted as the same act alike on every flow. */
  lemma SameRuleMatchesAlike(a: Body, b: Body)
    requires SameRule(a, b)
    ensures a.action == b.action && forall flow :: Matches(a, flow) <==> Matches(b, flow)
  {
    SameRuleExactlyWhen(a, b);
    hide SameRule, Contains;
  }

  predicate Holds(policy: seq<AclRule>, body: Body) {
    exists i | 0 <= i < |policy| :: SameRule(policy[i].body, body)
  }

  /** Some rule of the policy says what this one says. */
  ghost predicate Stands(policy: seq<AclRule>, body: Body) {
    exists i | 0 <= i < |policy| :: SameMeaning(policy[i].body, body)
  }

  lemma HoldsIsStanding(policy: seq<AclRule>, body: Body)
    ensures Holds(policy, body) <==> Stands(policy, body)
  {
    hide SameRule, SameMeaning;
    forall i | 0 <= i < |policy| ensures SameRule(policy[i].body, body) <==> SameMeaning(policy[i].body, body) {
      SameRuleExactlyWhen(policy[i].body, body);
    }
  }

  // ---------------------------------------------------------------------
  // The two read-back checks
  // ---------------------------------------------------------------------

  datatype LiveFinding =
    | RulePresent(device: string, line: int)
    | LandedElsewhere(device: string, line: int, requested: int)
    | RuleAbsent(device: string)
    | FlowPermitted(device: string, flow: Flow)
    | FlowDenied(device: string, flow: Flow)
    | RuleStillThere(device: string)
    | FlowStillPermitted(device: string, flow: Flow)
    | FlowDeniedAgain(device: string, flow: Flow)

  predicate IsFailure(finding: LiveFinding) {
    finding.RuleAbsent? || finding.FlowDenied? || finding.RuleStillThere? || finding.FlowStillPermitted?
  }

  function FlowFinding(policy: seq<AclRule>, device: string, flow: Flow, wanted: bool): LiveFinding {
    if EvaluateFlow(policy, flow).action == Permit
    then (if wanted then FlowPermitted(device, flow) else FlowStillPermitted(device, flow))
    else (if wanted then FlowDenied(device, flow) else FlowDeniedAgain(device, flow))
  }

  function FlowFindings(policy: seq<AclRule>, device: string, flows: seq<Flow>, n: nat, wanted: bool): seq<LiveFinding>
    requires n <= |flows|
  {
    if n == 0 then []
    else FlowFindings(policy, device, flows, n - 1, wanted) + [FlowFinding(policy, device, flows[n - 1], wanted)]
  }

  /** A note, not a failure: the rule landed on another line than was asked for. */
  function Elsewhere(action: ChangeAction, line: int): seq<LiveFinding> {
    if action.position.Some? && line != action.position.value
    then [LandedElsewhere(action.device, line, action.position.value)] else []
  }

  /** The first rule of the policy that counts as the expected one. */
  function FirstSame(policy: seq<AclRule>, body: Body): (r: Option<nat>)
    ensures r.Some? ==> r.value < |policy| && SameRule(policy[r.value].body, body)
    ensures forall i | 0 <= i < |policy| && (r.Some? ==> i < r.value) :: !SameRule(policy[i].body, body)
  {
    if policy == [] then None
    else if SameRule(policy[0].body, body) then Some(0)
    else match FirstSame(policy[1..], body)
      case None => None
      case Some(i) => Some(i + 1)
  }

  function RuleFindings(policy: seq<AclRule>, action: ChangeAction, parse: Parser, wanted: bool): seq<LiveFinding> {
    match ParseCommand(parse, action.command)
    case None => []
    case Some(body) =>
      if wanted then
        match FirstSame(policy, body)
        case None => [RuleAbsent(action.device)]
        case Some(i) => [RulePresent(action.device, policy[i].line)] + Elsewhere(action, policy[i].line)
      else if Holds(policy, body) then [RuleStillThere(action.device)] else []
  }

  function Findings(fleet: Fleet, actions: seq<ChangeAction>, flows: seq<Flow>, parse: Parser, n: nat,
                    wanted: bool): seq<LiveFinding>
    requires n <= |actions|
  {
    if n == 0 then []
    else
      var policy := ReadDevice(fleet, actions[n - 1].device, parse);
      Findings(fleet, actions, flows, parse, n - 1, wanted) +
      RuleFindings(policy, actions[n - 1], parse, wanted) +
      FlowFindings(policy, actions[n - 1].device, flows, |flows|, wanted)
  }

  predicate Clean(findings: seq<LiveFinding>) {
    forall i | 0 <= i < |findings| :: !IsFailure(findings[i])
  }

  lemma CleanConcat(a: seq<LiveFinding>, b: seq<LiveFinding>)
    ensures Clean(a + b) <==> Clean(a) && Clean(b)
  {
    if Clean(a + b) {
      assert forall i | 0 <= i < |a| :: (a + b)[i] == a[i];
      forall i | 0 <= i < |b| ensures !IsFailure(b[i]) {
        assert (a + b)[|a| + i] == b[i];
      }
    }
  }

  lemma CleanConcatThree(a: seq<LiveFinding>, b: seq<LiveFinding>, c: seq<LiveFinding>)
    ensures Clean(a + b + c) <==> Clean(a) && Clean(b + c)
  {
    assert a + b + c == a + (b + c);
    CleanConcat(a, b + c);
  }

  lemma CleanAppend(a: seq<LiveFinding>, finding: LiveFinding)
    ensures Clean(a + [finding]) <==> Clean(a) && !IsFailure(finding)
  {
    CleanConcat(a, [finding]);
    assert [finding][0] == finding;
  }

  /** After a change: the rule is there and the evidence is permitted (`wanted`), or
      after a reversal: the rule is gone and the evidence is not permitted. */
  method ReadBack(fleet: Fleet, actions: seq<ChangeAction>, flows: seq<Flow>, parse: Parser, wanted: bool)
    returns (ok: bool, findings: seq<LiveFinding>)
    ensures findings == Findings(fleet, actions, flows, parse, |actions|, wanted)
    ensures ok == Clean(findings)
  {
    assert Clean([]);
    hide ReadDevice, RuleFindings, FlowFindings, Clean;
    ok, findings := true, [];
    for n := 0 to |actions|
      invariant findings == Findings(fleet, actions, flows, parse, n, wanted)
      invariant ok == Clean(findings)
    {
      var policy := ReadDevice(fleet, actions[n].device, parse);
      var rule := RuleFindings(policy, actions[n], parse, wanted);
      var flowsOk, flowFindings := ReadFlows(policy, actions[n].device, flows, wanted);
      CleanConcat(findings, rule);
      CleanConcat(findings + rule, flowFindings);
      ok := ok && Clean(rule) && flowsOk;
      findings := findings + rule + flowFindings;
    }
  }

  method ReadFlows(policy: seq<AclRule>, device: string, flows: seq<Flow>, wanted: bool)
    returns (ok: bool, findings: seq<LiveFinding>)
    ensures findings == FlowFindings(policy, device, flows, |flows|, wanted)
    ensures ok == Clean(findings)
  {
    assert Clean([]);
    hide EvaluateFlow, FlowFinding, Clean;
    ok, findings := true, [];
    for m := 0 to |flows|
      invariant findings == FlowFindings(policy, device, flows, m, wanted)
      invariant ok == Clean(findings)
    {
      var finding := FlowFinding(policy, device, flows[m], wanted);
      CleanAppend(findings, finding);
      ok := ok && !IsFailure(finding);
      findings := findings + [finding];
    }
  }

  /** The devices' policies carry every proposed rule and permit all the evidence. */
  ghost predicate InForce(fleet: Fleet, actions: seq<ChangeAction>, flows: seq<Flow>, parse: Parser) {
    forall i | 0 <= i < |actions| ::
      var policy := ReadDevice(fleet, actions[i].device, parse);
      var expected := ParseCommand(parse, actions[i].command);
      && (expected.Some? ==> Stands(policy, expected.value))
      && (forall f | f in flows :: EvaluateFlow(policy, f).action == Permit)
  }

  /** None of the proposed rules is on its device, and none of the evidence is permitted there. */
  ghost predicate Withdrawn(fleet: Fleet, actions: seq<ChangeAction>, flows: seq<Flow>, parse: Parser) {
    forall i | 0 <= i < |actions| ::
      var policy := ReadDevice(fleet, actions[i].device, parse);
      var expected := ParseCommand(parse, actions[i].command);
      && (expected.Some? ==> !Stands(policy, expected.value))
      && (forall f | f in flows :: EvaluateFlow(policy, f).action != Permit)
  }

  lemma {:induction false} FlowFindingsClean(policy: seq<AclRule>, device: string, flows: seq<Flow>, n: nat,
                                             wanted: bool)
    requires n <= |flows|
    ensures Clean(FlowFindings(policy, device, flows, n, wanted)) <==>
              forall i | 0 <= i < n :: !IsFailure(FlowFinding(policy, device, flows[i], wanted))
  {
    assert Clean([]);
    hide FlowFinding, Clean, EvaluateFlow;
    if n > 0 {
      FlowFindingsClean(policy, device, flows, n - 1, wanted);
      CleanAppend(FlowFindings(policy, device, flows, n - 1, wanted),
                  FlowFinding(policy, device, flows[n - 1], wanted));
    }
  }

  ghost predicate AsWanted(fleet: Fleet, action: ChangeAction, flows: seq<Flow>, parse: Parser, wanted: bool) {
    var policy := ReadDevice(fleet, action.device, parse);
    var expected := ParseCommand(parse, action.command);
    && (expected.Some? ==> Holds(policy, expected.value) == wanted)
    && (forall f | f in flows :: (EvaluateFlow(policy, f).action == Permit) == wanted)
  }

  lemma OneActionClean(fleet: Fleet, action: ChangeAction, flows: seq<Flow>, parse: Parser, wanted: bool)
    ensures var policy := ReadDevice(fleet, action.device, parse);
            Clean(RuleFindings(policy, action, parse, wanted)
                  + FlowFindings(policy, action.device, flows, |flows|, wanted))
            <==> AsWanted(fleet, action, flows, parse, wanted)
  {
    hide EvaluateFlow, ReadDevice, FlowFindings, RuleFindings, Clean, Holds;
    var policy := ReadDevice(fleet, action.device, parse);
    CleanConcat(RuleFindings(policy, action, parse, wanted),
                FlowFindings(policy, action.device, flows, |flows|, wanted));
    FlowFindingsClean(policy, action.device, flows, |flows|, wanted);
    RuleFindingsClean(policy, action, parse, wanted);
    forall i | 0 <= i < |flows|
      ensures IsFailure(FlowFinding(policy, action.device, flows[i], wanted)) <==>
                (EvaluateFlow(policy, flows[i]).action == Permit) != wanted
    {
    }
    assert forall i | 0 <= i < |flows| :: flows[i] in flows;
  }

  lemma RuleFindingsClean(policy: seq<AclRule>, action: ChangeAction, parse: Parser, wanted: bool)
    ensures var expected := ParseCommand(parse, action.command);
            Clean(RuleFindings(policy, action, parse, wanted)) <==>
              (expected.Some? ==> Holds(policy, expected.value) == wanted)
  {
    var expected := ParseCommand(parse, action.command);
    if expected.Some? && wanted {
      assert FirstSame(policy, expected.value).Some? <==> Holds(policy, expected.value);
    }
    hide Holds, FirstSame, SameRule, ParseCommand;
    var findings := RuleFindings(policy, action, parse, wanted);
    if findings != [] {
      assert IsFailure(findings[0]) || Clean(findings);
    }
  }

  ghost predicate AllAsWanted(fleet: Fleet, actions: seq<ChangeAction>, flows: seq<Flow>, parse: Parser, n: nat,
                              wanted: bool)
    requires n <= |actions|
  {
    n == 0 || (AllAsWanted(fleet, actions, flows, parse, n - 1, wanted)
               && AsWanted(fleet, actions[n - 1], flows, parse, wanted))
  }

  lemma {:induction false} AllAsWantedMeansEach(fleet: Fleet, actions: seq<ChangeAction>, flows: seq<Flow>,
                                                parse: Parser, n: nat, wanted: bool)
    requires n <= |actions|
    ensures AllAsWanted(fleet, actions, flows, parse, n, wanted) <==>
              forall i | 0 <= i < n :: AsWanted(fleet, actions[i], flows, parse, wanted)
  {
    if n > 0 {
      AllAsWantedMeansEach(fleet, actions, flows, parse, n - 1, wanted);
    }
  }

  lemma {:induction false} FindingsClean(fleet: Fleet, actions: seq<ChangeAction>, flows: seq<Flow>, parse: Parser,
                                         n: nat, wanted: bool)
    requires n <= |actions|
    ensures Clean(Findings(fleet, actions, flows, parse, n, wanted)) <==>
              AllAsWanted(fleet, actions, flows, parse, n, wanted)
  {
    assert Clean([]);
    hide AsWanted, ReadDevice, RuleFindings, FlowFindings, Clean;
    if n > 0 {
      FindingsClean(fleet, actions, flows, parse, n - 1, wanted);
      OneActionClean(fleet, actions[n - 1], flows, parse, wanted);
      var policy := ReadDevice(fleet, actions[n - 1].device, parse);
      var a, b, c := Findings(fleet, actions, flows, parse, n - 1, wanted),
                     RuleFindings(policy, actions[n - 1], parse, wanted),
                     FlowFindings(policy, actions[n - 1].device, flows, |flows|, wanted);
      CleanConcatThree(a, b, c);
    }
  }

  /** A clean read-back means what the terminal state will claim, and nothing less. */
  lemma ReadBackIsExact(fleet: Fleet, actions: seq<ChangeAction>, flows: seq<Flow>, parse: Parser)
    ensures Clean(Findings(fleet, actions, flows, parse, |actions|, true)) <==> InForce(fleet, actions, flows, parse)
    ensures Clean(Findings(fleet, actions, flows, parse, |actions|, false)) <==> Withdrawn(fleet, actions, flows, parse)
  {
    hide EvaluateFlow, Findings, Clean, Holds, Stands;
    forall policy, body ensures Holds(policy, body) <==> Stands(policy, body) {
      HoldsIsStanding(policy, body);
    }
    FindingsClean(fleet, actions, flows, parse, |actions|, true);
    FindingsClean(fleet, actions, flows, parse, |actions|, false);
    AllAsWantedMeansEach(fleet, actions, flows, parse, |actions|, true);
    AllAsWantedMeansEach(fleet, actions, flows, parse, |actions|, false);
  }

  // ---------------------------------------------------------------------
  // What a read-back says
  // ---------------------------------------------------------------------

  /** One finding for a flow: its verdict, against the verdict hoped for. */
  ghost predicate SaidOfFlow(policy: seq<AclRule>, device: string, flow: Flow, wanted: bool, finding: LiveFinding) {
    match finding
    case FlowPermitted(d, f) => wanted && d == device && f == flow && EvaluateFlow(policy, flow).action == Permit
    case FlowDenied(d, f) => wanted && d == device && f == flow && EvaluateFlow(policy, flow).action != Permit
    case FlowStillPermitted(d, f) => !wanted && d == device && f == flow && EvaluateFlow(policy, flow).action == Permit
    case FlowDeniedAgain(d, f) => !wanted && d == device && f == flow && EvaluateFlow(policy, flow).action != Permit
    case _ => false
  }

  ghost predicate SaidOfFlows(policy: seq<AclRule>, device: string, flows: seq<Flow>, wanted: bool,
                              findings: seq<LiveFinding>) {
    |findings| == |flows| && forall i | 0 <= i < |flows| :: SaidOfFlow(policy, device, flows[i], wanted, findings[i])
  }

  /** The first rule of the policy that says what is expected. */
  ghost predicate FirstStanding(policy: seq<AclRule>, body: Body, i: nat) {
    i < |policy| && SameMeaning(policy[i].body, body) && forall j | 0 <= j < i :: !SameMeaning(policy[j].body, body)
  }

  /** Where the expected rule is, with a note when that is not where it was asked for; or that it is not there. */
  ghost predicate SaidOfRule(policy: seq<AclRule>, action: ChangeAction, body: Body, wanted: bool,
                             findings: seq<LiveFinding>) {
    if !Stands(policy, body) then findings == if wanted then [RuleAbsent(action.device)] else []
    else if !wanted then findings == [RuleStillThere(action.device)]
    else exists i: nat ::
      && FirstStanding(policy, body, i)
      && findings == [RulePresent(action.device, policy[i].line)] +
                     if action.position in {None, Some(policy[i].line)} then []
                     else [LandedElsewhere(action.device, policy[i].line, action.position.value)]
  }

  /** Everything said of one action: its rule first, when its command parses, and then every flow in turn. */
  ghost predicate SaidOfAction(fleet: Fleet, action: ChangeAction, flows: seq<Flow>, parse: Parser, wanted: bool,
                               findings: seq<LiveFinding>) {
    var policy, expected := ReadDevice(fleet, action.device, parse), ParseCommand(parse, action.command);
    exists rule, about ::
      && (if expected.Some? then SaidOfRule(policy, action, expected.value, wanted, rule) else rule == [])
      && SaidOfFlows(policy, action.device, flows, wanted, about)
      && findings == rule + about
  }

  lemma {:induction false} FlowsAreSaid(policy: seq<AclRule>, device: string, flows: seq<Flow>, n: nat, wanted: bool)
    requires n <= |flows|
    ensures SaidOfFlows(policy, device, flows[..n], wanted, FlowFindings(policy, device, flows, n, wanted))
  {
    hide EvaluateFlow;
    if n > 0 {
      FlowsAreSaid(policy, device, flows, n - 1, wanted);
      assert forall i | 0 <= i < n - 1 :: flows[..n][i] == flows[..n - 1][i];
    }
  }

  lemma RuleIsSaid(policy: seq<AclRule>, action: ChangeAction, parse: Parser, wanted: bool)
    requires ParseCommand(parse, action.command).Some?
    ensures SaidOfRule(policy, action, ParseCommand(parse, action.command).value, wanted,
                       RuleFindings(policy, action, parse, wanted))
  {
    var body := ParseCommand(parse, action.command).value;
    HoldsIsStanding(policy, body);
    forall i | 0 <= i < |policy| ensures SameRule(policy[i].body, body) <==> SameMeaning(policy[i].body, body) {
      SameRuleExactlyWhen(policy[i].body, body);
    }
    hide SameRule, SameMeaning;
    var first := FirstSame(policy, body);
    if first.Some? {
      assert FirstStanding(policy, body, first.value);
    }
  }

  /** A read-back says what is to be said of each action in turn. */
  lemma {:induction false} ReadBackSaysEach(fleet: Fleet, actions: seq<ChangeAction>, flows: seq<Flow>, parse: Parser,
                                            n: nat, wanted: bool) returns (said: seq<seq<LiveFinding>>)
    requires n <= |actions|
    ensures |said| == n && forall i | 0 <= i < n :: SaidOfAction(fleet, actions[i], flows, parse, wanted, said[i])
    ensures Findings(fleet, actions, flows, parse, n, wanted) == Flatten(said)
  {
    hide SaidOfAction, RuleFindings, FlowFindings, ReadDevice;
    if n == 0 {
      said := [];
    } else {
      var front := ReadBackSaysEach(fleet, actions, flows, parse, n - 1, wanted);
      var last := ActionIsSaid(fleet, actions[n - 1], flows, parse, wanted);
      said := front + [last];
      assert said[..n - 1] == front;
      var policy := ReadDevice(fleet, actions[n - 1].device, parse);
      Regrouped(Flatten(front), RuleFindings(policy, actions[n - 1], parse, wanted),
                FlowFindings(policy, actions[n - 1].device, flows, |flows|, wanted));
    }
  }

  lemma Regrouped(a: seq<LiveFinding>, b: seq<LiveFinding>, c: seq<LiveFinding>)
    ensures a + b + c == a + (b + c)
  {
  }

  lemma ActionIsSaid(fleet: Fleet, action: ChangeAction, flows: seq<Flow>, parse: Parser, wanted: bool)
    returns (findings: seq<LiveFinding>)
    ensures SaidOfAction(fleet, action, flows, parse, wanted, findings)
    ensures var policy := ReadDevice(fleet, action.device, parse);
            findings == RuleFindings(policy, action, parse, wanted)
                        + FlowFindings(policy, action.device, flows, |flows|, wanted)
  {
    var policy := ReadDevice(fleet, action.device, parse);
    var rule, about := RuleFindings(policy, action, parse, wanted),
        FlowFindings(policy, action.device, flows, |flows|, wanted);
    FlowsAreSaid(policy, action.device, flows, |flows|, wanted);
    assert flows[..|flows|] == flows;
    if ParseCommand(parse, action.command).Some? {
      RuleIsSaid(policy, action, parse, wanted);
    }
    hide SaidOfFlows, SaidOfRule, ReadDevice;
    findings := rule + about;
  }

  // ---------------------------------------------------------------------
  // The preconditions for touching a device
  // ---------------------------------------------------------------------

  datatype Reason =
    | NothingToExecute
    | NoEvidence
    | DeviceNotAllowed(device: string)
    | NotSimulated(device: string)
    | NoVerifiedRollback(device: string)
    | CommandNotModelled(device: string)
    | RollbackNotModelled(device: string)

  ghost predicate Executable(action: ChangeAction, allowed: set<string>, parse: Parser) {
    && action.device in allowed && action.verified && action.rollbackVerified
    && ParseCommand(parse, action.command).Some?
    && ParseCommand(parse, action.rollback).Some?
  }

  ghost predicate GuardOk(actions: seq<ChangeAction>, flows: seq<Flow>, allowed: set<string>, parse: Parser) {
    actions != [] && flows != [] && forall i | 0 <= i < |actions| :: Executable(actions[i], allowed, parse)
  }

  function ReasonsFor(action: ChangeAction, allowed: set<string>, parse: Parser): seq<Reason> {
    (if action.device !in allowed then [DeviceNotAllowed(action.device)] else []) +
    (if !action.verified then [NotSimulated(action.device)] else []) +
    (if !action.rollbackVerified || action.rollback == Blank then [NoVerifiedRollback(action.device)] else []) +
    (if ParseCommand(parse, action.command).None? then [CommandNotModelled(action.device)] else []) +
    (if action.rollback != Blank && ParseCommand(parse, action.rollback).None?
     then [RollbackNotModelled(action.device)] else [])
  }

  function Reasons(actions: seq<ChangeAction>, flows: seq<Flow>, allowed: set<string>, parse: Parser,
                   n: nat): seq<Reason>
    requires n <= |actions|
  {
    if n == 0 then
      (if actions == [] then [NothingToExecute] else []) + (if flows == [] then [Reason.NoEvidence] else [])
    else Reasons(actions, flows, allowed, parse, n - 1) + ReasonsFor(actions[n - 1], allowed, parse)
  }

  method Check(actions: seq<ChangeAction>, flows: seq<Flow>, allowed: set<string>, parse: Parser)
    returns (reasons: seq<Reason>)
    ensures reasons == Reasons(actions, flows, allowed, parse, |actions|)
  {
    reasons := [];
    if actions == [] {
      reasons := reasons + [NothingToExecute];
    }
    if flows == [] {
      reasons := reasons + [NoEvidence];
    }
    for n := 0 to |actions|
      invariant reasons == Reasons(actions, flows, allowed, parse, n)
    {
      reasons := reasons + ReasonsFor(actions[n], allowed, parse);
    }
  }

  lemma {:induction false} ReasonsUpTo(actions: seq<ChangeAction>, flows: seq<Flow>, allowed: set<string>,
                                       parse: Parser, n: nat)
    requires n <= |actions|
    ensures Reasons(actions, flows, allowed, parse, n) == [] <==>
              actions != [] && flows != [] && forall i | 0 <= i < n :: Executable(actions[i], allowed, parse)
  {
    if n > 0 {
      ReasonsUpTo(actions, flows, allowed, parse, n - 1);
      assert ReasonsFor(actions[n - 1], allowed, parse) == [] <==> Executable(actions[n - 1], allowed, parse);
    }
  }

  /** The guard raises no objection exactly when every precondition holds. */
  lemma GuardIsExact(actions: seq<ChangeAction>, flows: seq<Flow>, allowed: set<string>, parse: Parser)
    ensures Reasons(actions, flows, allowed, parse, |actions|) == [] <==> GuardOk(actions, flows, allowed, parse)
  {
    ReasonsUpTo(actions, flows, allowed, parse, |actions|);
  }

  /** The trouble a reason names, with this action. */
  ghost predicate Objectionable(action: ChangeAction, allowed: set<string>, parse: Parser, reason: Reason) {
    match reason
    case DeviceNotAllowed(device) => action.device == device && device !in allowed
    case NotSimulated(device) => action.device == device && !action.verified
    case NoVerifiedRollback(device) => action.device == device && (!action.rollbackVerified || action.rollback == Blank)
    case CommandNotModelled(device) => action.device == device && ParseCommand(parse, action.command) == None
    case RollbackNotModelled(device) =>
      action.device == device && action.rollback != Blank && ParseCommand(parse, action.rollback) == None
    case _ => false
  }

  /** A reason is given exactly when there is that trouble: nothing to do, no evidence, or one of the actions. */
  lemma {:induction false} ReasonGivenExactlyWhen(actions: seq<ChangeAction>, flows: seq<Flow>, allowed: set<string>,
                                                  parse: Parser, n: nat, reason: Reason)
    requires n <= |actions|
    ensures reason in Reasons(actions, flows, allowed, parse, n) <==>
              || (reason == NothingToExecute && actions == [])
              || (reason == Reason.NoEvidence && flows == [])
              || exists i :: 0 <= i < n && Objectionable(actions[i], allowed, parse, reason)
  {
    hide ReasonsFor, Objectionable;
    if n > 0 {
      ReasonGivenExactlyWhen(actions, flows, allowed, parse, n - 1, reason);
      ObjectionIsGiven(actions[n - 1], allowed, parse, reason);
      assert reason in Reasons(actions, flows, allowed, parse, n) <==>
               || reason in Reasons(actions, flows, allowed, parse, n - 1)
               || reason in ReasonsFor(actions[n - 1], allowed, parse);
    }
  }

  lemma ObjectionIsGiven(action: ChangeAction, allowed: set<string>, parse: Parser, reason: Reason)
    ensures reason in ReasonsFor(action, allowed, parse) <==> Objectionable(action, allowed, parse, reason)
  {
    hide ParseCommand;
  }
}
