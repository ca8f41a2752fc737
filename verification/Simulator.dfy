/**
 The change simulator of apps/api/app/verify.py: splice the proposed rule into
 the device's policy, re-evaluate the denied flows, and judge the result.

 Message text is modelled as structured findings and remedies.
 */
module Simulator {
  import opened Wrappers
  import opened Sequences
  import opened AclPolicy

  /** A parsed command: the line it states, if any, and the rule itself. */
  datatype Command = Command(line: Option<nat>, body: Body)

  /** One proposed action; `command` is absent when the text does not parse. */
  datatype Proposal = Proposal(device: string, command: Option<Command>, position: Option<int>)

  /** What the simulator asks the firewall backend: policies, and where NAT touches the flows. */
  datatype Firewall = Firewall(policies: map<string, seq<AclRule>>, translating: set<string>) {
    function Policy(device: string): seq<AclRule> {
      if device in policies then policies[device] else []
    }
  }

  datatype Finding =
    | NothingProposed
    | NoEvidence
    | Unreadable(device: string)
    | Translated(device: string)
    | Inserting(device: string, line: int)
    | Appending(device: string, line: int)
    | Unmodelled(device: string, rules: seq<AclRule>)
    | PassByProposal(flow: Flow)
    | PassByExisting(flow: Flow, rule: Option<nat>)
    | StillDenied(flow: Flow, blocker: Option<nat>)
    | EveryPort
    | TooWide(permitted: int, needed: int)

  datatype Remedy = NoRemedy | Reissue | ConfirmAddresses | ReviewOrder | MoveTo(position: int) | Narrow

  datatype Report = Report(ok: bool, findings: seq<Finding>, remedy: Remedy)

  // ---------------------------------------------------------------------
  // The pieces of one judgement
  // ---------------------------------------------------------------------

  /** The line the simulator gives the rule: stated, else requested, else appended. */
  function EffectiveLine(command: Command, position: Option<int>, base: seq<AclRule>): int {
    match command.line
    case Some(n) => n
    case None =>
      match position
      case Some(p) => p
      case None => MaxOf(Lines(base)) + 10
  }

  function Spliced(command: Command, position: Option<int>, base: seq<AclRule>): AclRule {
    AclRule(EffectiveLine(command, position, base), command.body, "")
  }

  function UnmodelledAbove(base: seq<AclRule>, line: int): (r: seq<AclRule>)
    ensures forall rule :: rule in r <==> rule in base && rule.body.action == Unparsed && rule.line <= line
    ensures r == [] <==> forall i | 0 <= i < |base| :: base[i].body.action == Unparsed ==> base[i].line > line
  {
    if base == [] then []
    else
      var rest := UnmodelledAbove(base[1..], line);
      if base[0].body.action == Unparsed && base[0].line <= line then [base[0]] + rest else rest
  }

  predicate NonEmpty(host: Host) {
    host.V4? || host.text != ""
  }

  /** The sources named by the evidence: every one but the empty text. */
  function Sources(flows: seq<Flow>): (hosts: set<Host>)
    ensures forall h :: h in hosts <==> h != NotV4("") && exists f :: f in flows && f.src == h
  {
    set f | f in flows && NonEmpty(f.src) :: f.src
  }

  function Destinations(flows: seq<Flow>): (hosts: set<Host>)
    ensures forall h :: h in hosts <==> h != NotV4("") && exists f :: f in flows && f.dst == h
  {
    set f | f in flows && NonEmpty(f.dst) :: f.dst
  }

  function ScopeFindings(body: Body, flows: seq<Flow>): seq<Finding> {
    var srcs, dsts := Sources(flows), Destinations(flows);
    if srcs == {} || dsts == {} then []
    else
      var permitted, needed := Breadth(body.src) * Breadth(body.dst), |srcs| * |dsts|;
      (if body.port == None then [EveryPort] else []) +
      (if permitted > needed then [TooWide(permitted, needed)] else [])
  }

  function FlowFinding(base: seq<AclRule>, rule: AclRule, flow: Flow): Finding {
    var v := EvaluateFlow(base + [rule], flow);
    if v.action == Permit && v.hit == Some(|base|) then PassByProposal(flow)
    else if v.action == Permit then PassByExisting(flow, v.hit)
    else StillDenied(flow, v.hit)
  }

  /** The line of the rule a denied flow was blocked by. */
  function BlockerLine(base: seq<AclRule>, rule: AclRule, blocker: nat): int {
    if blocker < |base| then base[blocker].line else rule.line
  }

  function Noted(report: Report, base: seq<AclRule>, rule: AclRule, finding: Finding): Report {
    var findings := report.findings + [finding];
    if !finding.StillDenied? then report.(findings := findings)
    else if finding.blocker == None then Report(false, findings, report.remedy)
    else
      var line := BlockerLine(base, rule, finding.blocker.value);
      Report(false, findings, MoveTo(if line - 1 >= 1 then line - 1 else 1))
  }

  /** The report after the first n flows were judged. */
  function FlowsJudged(report: Report, base: seq<AclRule>, rule: AclRule, flows: seq<Flow>, n: nat): Report
    requires n <= |flows|
  {
    if n == 0 then report
    else Noted(FlowsJudged(report, base, rule, flows, n - 1), base, rule, FlowFinding(base, rule, flows[n - 1]))
  }

  predicate Carries(base: seq<AclRule>, rule: AclRule, flow: Flow) {
    FlowFinding(base, rule, flow).PassByProposal?
  }

  predicate CarriesSome(base: seq<AclRule>, rule: AclRule, flows: seq<Flow>, n: nat)
    requires n <= |flows|
  {
    exists i | 0 <= i < n :: Carries(base, rule, flows[i])
  }

  function WithScope(report: Report, base: seq<AclRule>, rule: AclRule, flows: seq<Flow>): Report {
    var scope := ScopeFindings(rule.body, flows);
    if CarriesSome(base, rule, flows, |flows|) && scope != []
    then Report(false, report.findings + scope, Narrow)
    else report
  }

  /** The report once translation, placement and unmodelled rules are noted. */
  function Prepared(report: Report, fw: Firewall, proposal: Proposal, command: Command): Report {
    var device, base := proposal.device, fw.Policy(proposal.device);
    var line := EffectiveLine(command, proposal.position, base);
    var r1 := if device in fw.translating
              then Report(false, report.findings + [Translated(device)], ConfirmAddresses) else report;
    var r2 := if command.line.Some? then r1
              else if proposal.position.Some? then r1.(findings := r1.findings + [Inserting(device, line)])
              else r1.(findings := r1.findings + [Appending(device, line)]);
    var blind := UnmodelledAbove(base, line);
    if blind == [] then r2 else Report(false, r2.findings + [Unmodelled(device, blind)], ReviewOrder)
  }

  function Judged(report: Report, fw: Firewall, proposal: Proposal, flows: seq<Flow>): Report {
    match proposal.command
    case None => Report(false, report.findings + [Unreadable(proposal.device)], Reissue)
    case Some(command) =>
      var base := fw.Policy(proposal.device);
      var rule := Spliced(command, proposal.position, base);
      WithScope(FlowsJudged(Prepared(report, fw, proposal, command), base, rule, flows, |flows|), base, rule, flows)
  }

  function AllJudged(fw: Firewall, proposals: seq<Proposal>, flows: seq<Flow>, n: nat): Report
    requires n <= |proposals|
  {
    if n == 0 then Report(true, [], NoRemedy)
    else Judged(AllJudged(fw, proposals, flows, n - 1), fw, proposals[n - 1], flows)
  }

  function Verified(fw: Firewall, proposals: seq<Proposal>, flows: seq<Flow>): Report {
    if proposals == [] then Report(false, [NothingProposed], NoRemedy)
    else if flows == [] then Report(false, [NoEvidence], NoRemedy)
    else AllJudged(fw, proposals, flows, |proposals|)
  }

  // ---------------------------------------------------------------------
  // The simulator itself
  // ---------------------------------------------------------------------

  method VerifyChange(proposals: seq<Proposal>, flows: seq<Flow>, fw: Firewall) returns (report: Report)
    ensures report == Verified(fw, proposals, flows)
  {
    if proposals == [] {
      return Report(false, [NothingProposed], NoRemedy);
    }
    if flows == [] {
      return Report(false, [NoEvidence], NoRemedy);
    }
    report := Report(true, [], NoRemedy);
    for n := 0 to |proposals|
      invariant report == AllJudged(fw, proposals, flows, n)
    {
      report := JudgeOne(report, proposals[n], flows, fw);
    }
  }

  /** One pass of the outer loop. */
  method JudgeOne(prior: Report, proposal: Proposal, flows: seq<Flow>, fw: Firewall) returns (report: Report)
    ensures report == Judged(prior, fw, proposal, flows)
  {
    if proposal.command.None? {
      return Report(false, prior.findings + [Unreadable(proposal.device)], Reissue);
    }
    var command, base := proposal.command.value, fw.Policy(proposal.device);
    var prepared, rule := Prepare(prior, proposal, command, fw);
    var matchedProposal;
    report, matchedProposal := JudgeFlows(prepared, base, rule, flows);
    if matchedProposal {
      var scope := ScopeFindings(rule.body, flows);
      if scope != [] {
        report := Report(false, report.findings + scope, Narrow);
      }
    }
  }

  /** Translation, the rule's line, and the rules above it that could not be modelled. */
  method Prepare(prior: Report, proposal: Proposal, command: Command, fw: Firewall)
    returns (report: Report, rule: AclRule)
    ensures report == Prepared(prior, fw, proposal, command)
    ensures rule == Spliced(command, proposal.position, fw.Policy(proposal.device))
  {
    hide UnmodelledAbove, Lines, MaxOf;
    var base := fw.Policy(proposal.device);
    var ok, findings, remedy := prior.ok, prior.findings, prior.remedy;
    if proposal.device in fw.translating {
      ok, findings, remedy := false, findings + [Translated(proposal.device)], ConfirmAddresses;
    }
    rule := AclRule(if command.line.Some? then command.line.value else -1, command.body, "");
    if rule.line < 0 && proposal.position.Some? {
      rule := rule.(line := proposal.position.value);
      findings := findings + [Inserting(proposal.device, rule.line)];
    } else if rule.line < 0 {
      rule := rule.(line := MaxOf(Lines(base)) + 10);
      findings := findings + [Appending(proposal.device, rule.line)];
    }
    var blind := UnmodelledAbove(base, rule.line);
    if blind != [] {
      ok, findings, remedy := false, findings + [Unmodelled(proposal.device, blind)], ReviewOrder;
    }
    report := Report(ok, findings, remedy);
  }

  /** The inner loop: each flow against the policy with the rule spliced in. */
  method JudgeFlows(prior: Report, base: seq<AclRule>, rule: AclRule, flows: seq<Flow>)
    returns (report: Report, matchedProposal: bool)
    ensures report == FlowsJudged(prior, base, rule, flows, |flows|)
    ensures matchedProposal <==> CarriesSome(base, rule, flows, |flows|)
  {
    hide Matches, EvaluateFlow;
    report, matchedProposal := prior, false;
    for m := 0 to |flows|
      invariant report == FlowsJudged(prior, base, rule, flows, m)
      invariant matchedProposal <==> CarriesSome(base, rule, flows, m)
    {
      var v := EvaluateFlow(base + [rule], flows[m]);
      if v.action == Permit && v.hit == Some(|base|) {
        report := report.(findings := report.findings + [PassByProposal(flows[m])]);
        matchedProposal := true;
      } else if v.action == Permit {
        report := report.(findings := report.findings + [PassByExisting(flows[m], v.hit)]);
      } else {
        var remedy := report.remedy;
        if v.hit.Some? {
          var line := BlockerLine(base, rule, v.hit.value);
          remedy := MoveTo(if line - 1 >= 1 then line - 1 else 1);
        }
        report := Report(false, report.findings + [StillDenied(flows[m], v.hit)], remedy);
      }
    }
  }

  // ---------------------------------------------------------------------
  // What an accepted change means
  // ---------------------------------------------------------------------

  /** Everything one proposal must satisfy, independently of how it is scanned. */
  ghost predicate Acceptable(fw: Firewall, proposal: Proposal, flows: seq<Flow>) {
    && proposal.command.Some?
    && proposal.device !in fw.translating
    && var base := fw.Policy(proposal.device);
       var rule := Spliced(proposal.command.value, proposal.position, base);
       && (forall i | 0 <= i < |base| :: base[i].body.action == Unparsed ==> rule.line < base[i].line)
       && (forall f | f in flows :: EvaluateFlow(base + [rule], f).action == Permit)
       && ((exists f | f in flows :: rule.body.action == Permit && ProposalFirst(base, rule, f)) ==>
             NarrowEnough(rule.body, flows))
  }

  ghost predicate NarrowEnough(body: Body, flows: seq<Flow>) {
    || Sources(flows) == {} || Destinations(flows) == {}
    || (body.port.Some? && Breadth(body.src) * Breadth(body.dst) <= |Sources(flows)| * |Destinations(flows)|)
  }

  lemma CarriesMeansFirst(base: seq<AclRule>, rule: AclRule, flow: Flow)
    ensures Carries(base, rule, flow) <==> rule.body.action == Permit && ProposalFirst(base, rule, flow)
  {
    SplicingOneRule(base, rule, flow);
    EvaluateIsFirstMatch(base, flow);
  }

  lemma CarriesSomeMeansFirst(base: seq<AclRule>, rule: AclRule, flows: seq<Flow>)
    ensures CarriesSome(base, rule, flows, |flows|) <==>
              exists f | f in flows :: rule.body.action == Permit && ProposalFirst(base, rule, f)
  {
    forall f | f in flows
      ensures Carries(base, rule, f) <==> rule.body.action == Permit && ProposalFirst(base, rule, f)
    {
      CarriesMeansFirst(base, rule, f);
    }
  }

  lemma {:induction false} FlowsJudgedOk(report: Report, base: seq<AclRule>, rule: AclRule, flows: seq<Flow>, n: nat)
    requires n <= |flows|
    ensures FlowsJudged(report, base, rule, flows, n).ok <==>
              report.ok && forall i | 0 <= i < n :: EvaluateFlow(base + [rule], flows[i]).action == Permit
  {
    if n > 0 {
      FlowsJudgedOk(report, base, rule, flows, n - 1);
    }
  }

  lemma {:induction false} AllJudgedOk(fw: Firewall, proposals: seq<Proposal>, flows: seq<Flow>, n: nat)
    requires n <= |proposals|
    ensures AllJudged(fw, proposals, flows, n).ok <==> AllAcceptable(fw, proposals, flows, n)
  {
    hide Judged, Acceptable;
    if n > 0 {
      var prior := AllJudged(fw, proposals, flows, n - 1);
      JudgedOk(prior, fw, proposals[n - 1], flows);
      AllJudgedOk(fw, proposals, flows, n - 1);
    }
  }

  ghost predicate AllAcceptable(fw: Firewall, proposals: seq<Proposal>, flows: seq<Flow>, n: nat)
    requires n <= |proposals|
  {
    n == 0 || (AllAcceptable(fw, proposals, flows, n - 1) && Acceptable(fw, proposals[n - 1], flows))
  }

  lemma {:induction false} AllAcceptableMeansEach(fw: Firewall, proposals: seq<Proposal>, flows: seq<Flow>, n: nat)
    requires n <= |proposals|
    ensures AllAcceptable(fw, proposals, flows, n) <==> forall i | 0 <= i < n :: Acceptable(fw, proposals[i], flows)
  {
    if n > 0 {
      AllAcceptableMeansEach(fw, proposals, flows, n - 1);
    }
  }

  lemma JudgedOk(report: Report, fw: Firewall, proposal: Proposal, flows: seq<Flow>)
    ensures Judged(report, fw, proposal, flows).ok <==> report.ok && Acceptable(fw, proposal, flows)
  {
    hide EvaluateFlow, Matches;
    if proposal.command.Some? {
      var base := fw.Policy(proposal.device);
      var rule := Spliced(proposal.command.value, proposal.position, base);
      var prepared := Prepared(report, fw, proposal, proposal.command.value);
      FlowsJudgedOk(prepared, base, rule, flows, |flows|);
      CarriesSomeMeansFirst(base, rule, flows);
      assert ScopeFindings(rule.body, flows) == [] <==> NarrowEnough(rule.body, flows);
    }
  }

  /** The simulator accepts exactly the proposals that are acceptable one by one. */
  lemma AcceptedExactlyWhenSound(fw: Firewall, proposals: seq<Proposal>, flows: seq<Flow>)
    ensures Verified(fw, proposals, flows).ok <==>
              && proposals != [] && flows != []
              && forall i | 0 <= i < |proposals| :: Acceptable(fw, proposals[i], flows)
  {
    if proposals != [] && flows != [] {
      AllJudgedOk(fw, proposals, flows, |proposals|);
      AllAcceptableMeansEach(fw, proposals, flows, |proposals|);
    }
  }

  // ---------------------------------------------------------------------
  // What a report says
  // ---------------------------------------------------------------------

  /** What is said about one flow: passed by the proposal, passed by another rule, or denied, and by which. */
  ghost predicate SaidOfFlow(base: seq<AclRule>, rule: AclRule, flow: Flow, finding: Finding) {
    var v := EvaluateFlow(base + [rule], flow);
    if rule.body.action == Permit && ProposalFirst(base, rule, flow) then finding == PassByProposal(flow)
    else if v.action == Permit then finding == PassByExisting(flow, v.hit)
    else finding == StillDenied(flow, v.hit)
  }

  ghost predicate SaidOfFlows(base: seq<AclRule>, rule: AclRule, flows: seq<Flow>, findings: seq<Finding>) {
    |findings| == |flows| && forall i | 0 <= i < |flows| :: SaidOfFlow(base, rule, flows[i], findings[i])
  }

  /** Some evidence is carried by the proposal, so its scope is judged. */
  ghost predicate CarriesEvidence(base: seq<AclRule>, rule: AclRule, flows: seq<Flow>) {
    exists f | f in flows :: rule.body.action == Permit && ProposalFirst(base, rule, f)
  }

  ghost function SaidOfScope(base: seq<AclRule>, rule: AclRule, flows: seq<Flow>): seq<Finding> {
    var permitted, needed := Breadth(rule.body.src) * Breadth(rule.body.dst), |Sources(flows)| * |Destinations(flows)|;
    if !CarriesEvidence(base, rule, flows) || NarrowEnough(rule.body, flows) then []
    else if rule.body.port.Some? then [TooWide(permitted, needed)]
    else if permitted <= needed then [EveryPort]
    else [EveryPort, TooWide(permitted, needed)]
  }

  /** What is said before any flow is looked at. */
  ghost function SaidFirst(fw: Firewall, proposal: Proposal): seq<Finding>
    requires proposal.command.Some?
  {
    var device, line := proposal.device, proposal.command.value.line;
    var base := fw.Policy(device);
    var at := if proposal.position.Some? then proposal.position.value else MaxOf(Lines(base)) + 10;
    (if device in fw.translating then [Translated(device)] else []) +
    (if line.Some? then [] else if proposal.position.Some? then [Inserting(device, at)] else [Appending(device, at)]) +
    (var blind := UnmodelledAbove(base, if line.Some? then line.value else at); if blind == [] then []
     else [Unmodelled(device, blind)])
  }

  /** Everything a report says about one proposal, in order. */
  ghost predicate Said(fw: Firewall, proposal: Proposal, flows: seq<Flow>, findings: seq<Finding>) {
    match proposal.command
    case None => findings == [Unreadable(proposal.device)]
    case Some(command) =>
      var base := fw.Policy(proposal.device);
      var rule := Spliced(command, proposal.position, base);
      exists about :: SaidOfFlows(base, rule, flows, about) &&
                      findings == SaidFirst(fw, proposal) + about + SaidOfScope(base, rule, flows)
  }

  /** The line above the rule that denies a flow, but no higher than line 1. */
  ghost predicate AboveBlocker(base: seq<AclRule>, rule: AclRule, flow: Flow, position: int) {
    var v := EvaluateFlow(base + [rule], flow);
    && v.action != Permit && v.hit.Some? && v.hit.value < |base + [rule]|
    && var above := (base + [rule])[v.hit.value].line - 1;
       position == if above < 1 then 1 else above
  }

  ghost predicate Blocked(base: seq<AclRule>, rule: AclRule, flow: Flow) {
    exists position :: AboveBlocker(base, rule, flow, position)
  }

  /** This is the position above the blocker of the last of the flows that has one. */
  ghost predicate AboveLastBlocker(base: seq<AclRule>, rule: AclRule, flows: seq<Flow>, n: nat, position: int)
    requires n <= |flows|
  {
    exists i ::
      && 0 <= i < n && AboveBlocker(base, rule, flows[i], position)
      && forall j | i < j < n :: !Blocked(base, rule, flows[j])
  }

  ghost predicate SomeBlocked(base: seq<AclRule>, rule: AclRule, flows: seq<Flow>, n: nat)
    requires n <= |flows|
  {
    exists i :: 0 <= i < n && Blocked(base, rule, flows[i])
  }

  ghost predicate BlindTo(base: seq<AclRule>, rule: AclRule) {
    exists r :: r in base && r.body.action == Unparsed && r.line <= rule.line
  }

  ghost predicate TooBroad(base: seq<AclRule>, rule: AclRule, flows: seq<Flow>) {
    CarriesEvidence(base, rule, flows) && !NarrowEnough(rule.body, flows)
  }

  /** What is advised about a rule: its gravest trouble, and of several denied flows the last. */
  ghost predicate AdvisedFor(base: seq<AclRule>, rule: AclRule, translating: bool, flows: seq<Flow>,
                             remedy: Option<Remedy>) {
    if TooBroad(base, rule, flows) then remedy == Some(Narrow)
    else if SomeBlocked(base, rule, flows, |flows|) then
      remedy.Some? && remedy.value.MoveTo? && AboveLastBlocker(base, rule, flows, |flows|, remedy.value.position)
    else if BlindTo(base, rule) then remedy == Some(ReviewOrder)
    else remedy == if translating then Some(ConfirmAddresses) else None
  }

  ghost predicate Advised(fw: Firewall, proposal: Proposal, flows: seq<Flow>, remedy: Option<Remedy>) {
    match proposal.command
    case None => remedy == Some(Reissue)
    case Some(command) =>
      var base := fw.Policy(proposal.device);
      AdvisedFor(base, Spliced(command, proposal.position, base), proposal.device in fw.translating, flows, remedy)
  }

  lemma FlowIsSaid(base: seq<AclRule>, rule: AclRule, flow: Flow)
    ensures SaidOfFlow(base, rule, flow, FlowFinding(base, rule, flow))
  {
    CarriesMeansFirst(base, rule, flow);
    hide EvaluateFlow, Matches, ProposalFirst;
  }

  lemma {:induction false} FlowsAreSaid(prior: Report, base: seq<AclRule>, rule: AclRule, flows: seq<Flow>, n: nat)
    returns (about: seq<Finding>)
    requires n <= |flows|
    ensures SaidOfFlows(base, rule, flows[..n], about)
    ensures FlowsJudged(prior, base, rule, flows, n).findings == prior.findings + about
  {
    hide EvaluateFlow, SaidOfFlow, FlowFinding;
    if n == 0 {
      about := [];
    } else {
      var front := FlowsAreSaid(prior, base, rule, flows, n - 1);
      about := front + [FlowFinding(base, rule, flows[n - 1])];
      FlowIsSaid(base, rule, flows[n - 1]);
      assert forall i | 0 <= i < n - 1 :: flows[..n][i] == flows[..n - 1][i] && about[i] == front[i];
    }
  }

  lemma BlockerIsAbove(prior: Report, base: seq<AclRule>, rule: AclRule, flow: Flow)
    ensures var r := Noted(prior, base, rule, FlowFinding(base, rule, flow));
            && (Blocked(base, rule, flow) ==> r.remedy.MoveTo? && AboveBlocker(base, rule, flow, r.remedy.position))
            && (!Blocked(base, rule, flow) ==> r.remedy == prior.remedy)
  {
    var all := base + [rule];
    EvaluateIsFirstMatch(all, flow);
    hide EvaluateFlow, Matches;
    var v := EvaluateFlow(all, flow);
    if v.action != Permit && v.hit.Some? {
      var above := all[v.hit.value].line - 1;
      assert AboveBlocker(base, rule, flow, if above < 1 then 1 else above);
    }
  }

  lemma {:induction false} LastBlockerAdvises(prior: Report, base: seq<AclRule>, rule: AclRule, flows: seq<Flow>,
                                              n: nat)
    requires n <= |flows|
    ensures var r := FlowsJudged(prior, base, rule, flows, n);
            if SomeBlocked(base, rule, flows, n) then
              r.remedy.MoveTo? && AboveLastBlocker(base, rule, flows, n, r.remedy.position)
            else r.remedy == prior.remedy
  {
    hide EvaluateFlow, AboveBlocker, Blocked, FlowFinding, Noted;
    if n > 0 {
      LastBlockerAdvises(prior, base, rule, flows, n - 1);
      BlockerIsAbove(FlowsJudged(prior, base, rule, flows, n - 1), base, rule, flows[n - 1]);
    }
  }

  /** One pass adds what is said of its proposal to the findings. */
  lemma JudgedSays(prior: Report, fw: Firewall, proposal: Proposal, flows: seq<Flow>) returns (findings: seq<Finding>)
    ensures Said(fw, proposal, flows, findings)
    ensures Judged(prior, fw, proposal, flows).findings == prior.findings + findings
  {
    match proposal.command
    case None => findings := [Unreadable(proposal.device)];
    case Some(command) =>
      var base := fw.Policy(proposal.device);
      var rule := Spliced(command, proposal.position, base);
      var prepared := Prepared(prior, fw, proposal, command);
      var about := FlowsAreSaid(prepared, base, rule, flows, |flows|);
      assert flows[..|flows|] == flows;
      findings := SaidFirst(fw, proposal) + about + SaidOfScope(base, rule, flows);
      hide SaidOfFlows, SaidFirst, SaidOfScope, Prepared, FlowsJudged, Judged;
      PreparedSays(prior, fw, proposal);
      ScopeIsAdded(prior, fw, proposal, flows);
      Regrouped(prior.findings, SaidFirst(fw, proposal), about, SaidOfScope(base, rule, flows));
  }

  lemma Regrouped(a: seq<Finding>, b: seq<Finding>, c: seq<Finding>, d: seq<Finding>)
    ensures a + b + c + d == a + (b + c + d)
  {
  }

  lemma ScopeIsAdded(prior: Report, fw: Firewall, proposal: Proposal, flows: seq<Flow>)
    requires proposal.command.Some?
    ensures var base := fw.Policy(proposal.device);
            var rule := Spliced(proposal.command.value, proposal.position, base);
            var prepared := Prepared(prior, fw, proposal, proposal.command.value);
            Judged(prior, fw, proposal, flows).findings ==
              FlowsJudged(prepared, base, rule, flows, |flows|).findings + SaidOfScope(base, rule, flows)
  {
    var base := fw.Policy(proposal.device);
    var rule := Spliced(proposal.command.value, proposal.position, base);
    CarriesSomeMeansFirst(base, rule, flows);
    ScopeIsSaid(base, rule, flows);
    hide Spliced, SaidOfScope, Prepared, FlowsJudged, ScopeFindings, CarriesEvidence, CarriesSome;
  }

  /** One pass replaces the advice when there is any about its proposal. */
  lemma JudgedAdvises(prior: Report, fw: Firewall, proposal: Proposal, flows: seq<Flow>)
      returns (remedy: Option<Remedy>)
    ensures Advised(fw, proposal, flows, remedy)
    ensures Judged(prior, fw, proposal, flows).remedy == remedy.GetOr(prior.remedy)
  {
    match proposal.command
    case None => remedy := Some(Reissue);
    case Some(command) =>
      hide Spliced, SomeBlocked, AboveLastBlocker, Prepared, FlowsJudged, Judged, TooBroad, BlindTo;
      var base := fw.Policy(proposal.device);
      var rule := Spliced(command, proposal.position, base);
      var judged := FlowsJudged(Prepared(prior, fw, proposal, command), base, rule, flows, |flows|);
      LastBlockerAdvises(Prepared(prior, fw, proposal, command), base, rule, flows, |flows|);
      PreparedSays(prior, fw, proposal);
      ScopeIsAdvised(prior, fw, proposal, flows);
      remedy :=
        if TooBroad(base, rule, flows) then Some(Narrow)
        else if SomeBlocked(base, rule, flows, |flows|) then Some(judged.remedy)
        else if BlindTo(base, rule) then Some(ReviewOrder)
        else if proposal.device in fw.translating then Some(ConfirmAddresses)
        else None;
  }

  lemma ScopeIsAdvised(prior: Report, fw: Firewall, proposal: Proposal, flows: seq<Flow>)
    requires proposal.command.Some?
    ensures var base := fw.Policy(proposal.device);
            var rule := Spliced(proposal.command.value, proposal.position, base);
            var prepared := Prepared(prior, fw, proposal, proposal.command.value);
            Judged(prior, fw, proposal, flows).remedy ==
              if TooBroad(base, rule, flows) then Narrow else FlowsJudged(prepared, base, rule, flows, |flows|).remedy
  {
    var base := fw.Policy(proposal.device);
    var rule := Spliced(proposal.command.value, proposal.position, base);
    CarriesSomeMeansFirst(base, rule, flows);
    ScopeIsSaid(base, rule, flows);
    hide Spliced, SaidOfScope, Prepared, FlowsJudged, ScopeFindings, CarriesEvidence, CarriesSome, NarrowEnough;
  }

  /** The report says what is to be said of each proposal in turn. */
  lemma {:induction false} ReportSaysEach(fw: Firewall, proposals: seq<Proposal>, flows: seq<Flow>, n: nat)
    returns (said: seq<seq<Finding>>)
    requires n <= |proposals|
    ensures |said| == n && forall i | 0 <= i < n :: Said(fw, proposals[i], flows, said[i])
    ensures AllJudged(fw, proposals, flows, n).findings == Flatten(said)
  {
    hide Judged, Said;
    if n == 0 {
      said := [];
    } else {
      var front := ReportSaysEach(fw, proposals, flows, n - 1);
      var last := JudgedSays(AllJudged(fw, proposals, flows, n - 1), fw, proposals[n - 1], flows);
      said := front + [last];
      assert said[..n - 1] == front;
    }
  }

  ghost function LastAdvice(advice: seq<Option<Remedy>>): Remedy {
    if advice == [] then NoRemedy
    else advice[|advice| - 1].GetOr(LastAdvice(advice[..|advice| - 1]))
  }

  /** The advice of the report is that about the last proposal there is any about. */
  lemma {:induction false} ReportAdvisesLast(fw: Firewall, proposals: seq<Proposal>, flows: seq<Flow>, n: nat)
    returns (advice: seq<Option<Remedy>>)
    requires n <= |proposals|
    ensures |advice| == n && forall i | 0 <= i < n :: Advised(fw, proposals[i], flows, advice[i])
    ensures AllJudged(fw, proposals, flows, n).remedy == LastAdvice(advice)
  {
    hide Judged, Advised;
    if n == 0 {
      advice := [];
    } else {
      var front := ReportAdvisesLast(fw, proposals, flows, n - 1);
      var last := JudgedAdvises(AllJudged(fw, proposals, flows, n - 1), fw, proposals[n - 1], flows);
      advice := front + [last];
      assert advice[..n - 1] == front;
    }
  }

  lemma ScopeIsSaid(base: seq<AclRule>, rule: AclRule, flows: seq<Flow>)
    ensures SaidOfScope(base, rule, flows) == if CarriesEvidence(base, rule, flows)
            then ScopeFindings(rule.body, flows) else []
    ensures SaidOfScope(base, rule, flows) != []
            <==> CarriesEvidence(base, rule, flows) && !NarrowEnough(rule.body, flows)
  {
    hide CarriesEvidence;
  }

  lemma PreparedSays(prior: Report, fw: Firewall, proposal: Proposal)
    requires proposal.command.Some?
    ensures var command, base := proposal.command.value, fw.Policy(proposal.device);
            var rule, r := Spliced(command, proposal.position, base), Prepared(prior, fw, proposal, command);
            && r.findings == prior.findings + SaidFirst(fw, proposal)
            && r.remedy == if BlindTo(base, rule) then ReviewOrder
                           else if proposal.device in fw.translating then ConfirmAddresses else prior.remedy
  {
  }
}
