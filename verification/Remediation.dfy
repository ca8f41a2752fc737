/**
 Re-proposing at the position a failed simulation suggests
 (apps/api/app/verify.py:307-337), round after round.
 */
module Remediation {
  import opened Wrappers
  import opened Intervals
  import opened AclPolicy
  import opened Simulator

  /** The position in round n: none at first, then whatever the last report suggested. */
  function PositionAt(fw: Firewall, device: string, command: Command, flows: seq<Flow>, n: nat): Option<int>
    decreases n, 0
  {
    if n == 0 then None
    else
      var remedy := ReportAt(fw, device, command, flows, n - 1).remedy;
      if remedy.MoveTo? then Some(remedy.position) else PositionAt(fw, device, command, flows, n - 1)
  }

  function ReportAt(fw: Firewall, device: string, command: Command, flows: seq<Flow>, n: nat): Report
    decreases n, 1
  {
    Verified(fw, [Proposal(device, Some(command), PositionAt(fw, device, command, flows, n))], flows)
  }

  function LineAt(fw: Firewall, device: string, command: Command, flows: seq<Flow>, n: nat): int {
    EffectiveLine(command, PositionAt(fw, device, command, flows, n), fw.Policy(device))
  }

  /** The deny lines the flows run into before the change. */
  ghost function ShadowLines(base: seq<AclRule>, flows: seq<Flow>): set<int> {
    set f | f in flows && Shadowed(base, f) :: ShadowLine(base, f)
  }

  predicate Shadowed(base: seq<AclRule>, flow: Flow) {
    var v := EvaluateFlow(base, flow);
    v.hit.Some? && v.hit.value < |base| && v.action == Deny
  }

  function ShadowLine(base: seq<AclRule>, flow: Flow): int
    requires Shadowed(base, flow)
  {
    base[EvaluateFlow(base, flow).hit.value].line
  }

  /** A permit for all the evidence, with nothing else wrong with it. */
  ghost predicate Plain(fw: Firewall, device: string, command: Command, flows: seq<Flow>) {
    && flows != [] && command.body.action == Permit
    && (forall f | f in flows :: Matches(command.body, f))
    && device !in fw.translating
    && ScopeFindings(command.body, flows) == []
    && (forall i | 0 <= i < |fw.Policy(device)| :: fw.Policy(device)[i].body.action != Unparsed)
  }

  lemma FindingAt(base: seq<AclRule>, rule: AclRule, flow: Flow)
    requires Matches(rule.body, flow) && rule.body.action == Permit
    requires forall i | 0 <= i < |base| :: base[i].body.action != Unparsed
    ensures var finding := FlowFinding(base, rule, flow);
            && (finding.StillDenied? <==> Shadowed(base, flow) && ShadowLine(base, flow) <= rule.line)
            && (finding.StillDenied? ==> finding.blocker == EvaluateFlow(base, flow).hit)
  {
    SplicingOneRule(base, rule, flow);
    EvaluateIsFirstMatch(base, flow);
    var v := EvaluateFlow(base, flow);
    if v.hit.Some? {
      assert Decides(base, flow, v.hit.value);
      assert forall j: nat | j < |base| :: Lines(base)[j] == base[j].line;
    }
  }

  /** The last flow still denied names the next position. */
  lemma {:induction false} RemedyAt(prior: Report, base: seq<AclRule>, rule: AclRule, flows: seq<Flow>, n: nat)
    requires n <= |flows| && rule.body.action == Permit && prior.ok
    requires forall f | f in flows :: Matches(rule.body, f)
    requires forall i | 0 <= i < |base| :: base[i].body.action != Unparsed
    ensures var r := FlowsJudged(prior, base, rule, flows, n);
            && (r.ok <==> forall i | 0 <= i < n ::
                !(Shadowed(base, flows[i]) && ShadowLine(base, flows[i]) <= rule.line))
            && (r.ok ==> r.remedy == prior.remedy)
            && (!r.ok ==> exists d :: d in ShadowLines(base, flows) && d <= rule.line &&
                                      r.remedy == MoveTo(if d - 1 >= 1 then d - 1 else 1))
  {
    hide EvaluateFlow, Matches, FlowFinding;
    if n > 0 {
      RemedyAt(prior, base, rule, flows, n - 1);
      var flow := flows[n - 1];
      FindingAt(base, rule, flow);
      if FlowFinding(base, rule, flow).StillDenied? {
        assert ShadowLine(base, flow) in ShadowLines(base, flows);
      }
    }
  }

  lemma RoundAt(fw: Firewall, device: string, command: Command, flows: seq<Flow>, n: nat)
    requires Plain(fw, device, command, flows)
    ensures var base, line, report := fw.Policy(device), LineAt(fw, device, command, flows, n),
            ReportAt(fw, device, command, flows, n);
            && (report.ok <==> forall d | d in ShadowLines(base, flows) :: line < d)
            && (!report.ok ==> exists d :: d in ShadowLines(base, flows) && d <= line &&
                                           report.remedy == MoveTo(if d - 1 >= 1 then d - 1 else 1))
  {
    hide EvaluateFlow, Matches, FlowsJudged;
    var proposal := Proposal(device, Some(command), PositionAt(fw, device, command, flows, n));
    var base := fw.Policy(device);
    var rule := Spliced(command, proposal.position, base);
    var start := Report(true, [], NoRemedy);
    assert AllJudged(fw, [proposal], flows, 0) == start;
    assert AllJudged(fw, [proposal], flows, 1) == Judged(start, fw, proposal, flows);
    assert UnmodelledAbove(base, rule.line) == [];
    RemedyAt(Prepared(start, fw, proposal, command), base, rule, flows, |flows|);
  }

  /** What is left to get past in round n. */
  ghost function Ahead(fw: Firewall, device: string, command: Command, flows: seq<Flow>, n: nat): set<int> {
    set d | d in ShadowLines(fw.Policy(device), flows) && d <= LineAt(fw, device, command, flows, n)
  }

  /** Past line 1, a failed round moves the proposal strictly up and past one more deny. */
  lemma RoundAdvances(fw: Firewall, device: string, command: Command, flows: seq<Flow>, n: nat)
    requires Plain(fw, device, command, flows) && command.line == None && !ReportAt(fw, device, command, flows, n).ok
    requires forall d | d in ShadowLines(fw.Policy(device), flows) :: d >= 2
    ensures LineAt(fw, device, command, flows, n + 1) < LineAt(fw, device, command, flows, n)
    ensures |Ahead(fw, device, command, flows, n + 1)| < |Ahead(fw, device, command, flows, n)|
  {
    hide Verified, EvaluateFlow, Matches;
    RoundAt(fw, device, command, flows, n);
    var base := fw.Policy(device);
    var d :| d in ShadowLines(base, flows) && d <= LineAt(fw, device, command, flows, n) &&
             ReportAt(fw, device, command, flows, n).remedy == MoveTo(if d - 1 >= 1 then d - 1 else 1);
    var now, next := Ahead(fw, device, command, flows, n), Ahead(fw, device, command, flows, n + 1);
    assert LineAt(fw, device, command, flows, n + 1) == d - 1;
    assert d in now && d !in next && next <= now;
    assert next <= now - {d};
    SubsetSize(next, now - {d});
  }

  ghost predicate FailsAndMovesUp(fw: Firewall, device: string, command: Command, flows: seq<Flow>, n: nat) {
    && !ReportAt(fw, device, command, flows, n).ok
    && LineAt(fw, device, command, flows, n + 1) < LineAt(fw, device, command, flows, n)
  }

  lemma {:induction false} ReachesPass(fw: Firewall, device: string, command: Command, flows: seq<Flow>, k: nat)
      returns (n: nat)
    requires Plain(fw, device, command, flows) && command.line == None
    requires forall d | d in ShadowLines(fw.Policy(device), flows) :: d >= 2
    ensures k <= n <= k + |Ahead(fw, device, command, flows, k)| && ReportAt(fw, device, command, flows, n).ok
    ensures forall j: nat | k <= j < n :: FailsAndMovesUp(fw, device, command, flows, j)
    decreases |Ahead(fw, device, command, flows, k)|
  {
    hide ReportAt, EvaluateFlow;
    if ReportAt(fw, device, command, flows, k).ok {
      n := k;
    } else {
      RoundAdvances(fw, device, command, flows, k);
      n := ReachesPass(fw, device, command, flows, k + 1);
    }
  }

  /** A deny on line 1 or above can never be got past: the suggested position stops at 1. */
  lemma {:induction false} StuckAtLineOne(fw: Firewall, device: string, command: Command, flows: seq<Flow>, d: int,
                                          n: nat)
    requires Plain(fw, device, command, flows) && command.line == None
    requires d in ShadowLines(fw.Policy(device), flows) && d < 2
    ensures d <= LineAt(fw, device, command, flows, n)
    ensures !ReportAt(fw, device, command, flows, n).ok
  {
    hide EvaluateFlow, Matches, Verified;
    var base := fw.Policy(device);
    if n == 0 {
      var f :| f in flows && Shadowed(base, f) && ShadowLine(base, f) == d;
      assert Lines(base)[EvaluateFlow(base, f).hit.value] == d;
    } else {
      StuckAtLineOne(fw, device, command, flows, d, n - 1);
      RoundAt(fw, device, command, flows, n - 1);
    }
    RoundAt(fw, device, command, flows, n);
  }

  /** A proposal that states its line is simulated there in every round, whatever is suggested. */
  lemma StatedLineStays(fw: Firewall, device: string, command: Command, flows: seq<Flow>, n: nat)
    requires Plain(fw, device, command, flows) && command.line.Some?
    ensures ReportAt(fw, device, command, flows, n).ok <==>
              forall d | d in ShadowLines(fw.Policy(device), flows) :: d > command.line.value
  {
    RoundAt(fw, device, command, flows, n);
  }

  /** Every deny in the way leaves room above it: above line 1 to move to, or above the line stated. */
  ghost predicate RoomAbove(fw: Firewall, device: string, command: Command, flows: seq<Flow>) {
    forall d | d in ShadowLines(fw.Policy(device), flows) ::
      d > if command.line.Some? then command.line.value else 1
  }

  /**
   Following the suggestions passes within as many re-proposals as there are deny
   lines in the way, each failed round strictly higher up than the last, exactly when
   every such deny is on line 2 or later, or below the line the proposal states;
   otherwise no number of rounds passes.
   */
  lemma RemediationConverges(fw: Firewall, device: string, command: Command, flows: seq<Flow>)
    requires Plain(fw, device, command, flows)
    ensures RoomAbove(fw, device, command, flows) <==> exists n: nat :: ReportAt(fw, device, command, flows, n).ok
    ensures RoomAbove(fw, device, command, flows) ==>
              exists n: nat ::
                && n <= (if command.line.Some? then 0 else |ShadowLines(fw.Policy(device), flows)|)
                && ReportAt(fw, device, command, flows, n).ok
                && forall k: nat | k < n :: FailsAndMovesUp(fw, device, command, flows, k)
  {
    hide ReportAt, EvaluateFlow, Plain;
    var shadows := ShadowLines(fw.Policy(device), flows);
    if command.line.Some? {
      forall n: nat ensures ReportAt(fw, device, command, flows, n).ok <==> RoomAbove(fw, device, command, flows) {
        StatedLineStays(fw, device, command, flows, n);
      }
      assert RoomAbove(fw, device, command, flows) ==> ReportAt(fw, device, command, flows, 0).ok;
    } else if RoomAbove(fw, device, command, flows) {
      var n := ReachesPass(fw, device, command, flows, 0);
      SubsetSize(Ahead(fw, device, command, flows, 0), shadows);
    } else {
      var d :| d in shadows && d < 2;
      forall n: nat ensures !ReportAt(fw, device, command, flows, n).ok {
        StuckAtLineOne(fw, device, command, flows, d, n);
      }
    }
  }

  const FRONT_DENY := Firewall(map["fw" := [AclRule(1, NOBODY, "A")]], {})
  const ONE_PAIR := Command(None, PAIR)

  /** The condition is needed: with a deny on line 1 every round suggests line 1 again. */
  lemma FrontDenyIsNeverPassed(n: nat)
    ensures Plain(FRONT_DENY, "fw", ONE_PAIR, [REACHABLE])
    ensures !ReportAt(FRONT_DENY, "fw", ONE_PAIR, [REACHABLE], n).ok
  {
    var base := FRONT_DENY.Policy("fw");
    assert Sources([REACHABLE]) == {V4(0)} && Destinations([REACHABLE]) == {V4(1)};
    assert BlockSize(32) == 1;
    assert Decides(base, REACHABLE, 0);
    EvaluateIsFirstMatch(base, REACHABLE);
    assert REACHABLE in [REACHABLE] && Shadowed(base, REACHABLE) && ShadowLine(base, REACHABLE) == 1;
    StuckAtLineOne(FRONT_DENY, "fw", ONE_PAIR, [REACHABLE], 1, n);
  }
}
