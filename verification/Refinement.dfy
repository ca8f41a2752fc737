/**
 What was simulated against what the device does.

 The simulator (apps/api/app/verify.py) puts the proposal after a rule already at
 its line; the device (infra/fakeasa/server.py) puts it there and pushes the
 others down, or leaves its list alone when the body is already in it.  The line
 sent is the one simulated (apps/api/app/execute/render.py).
 */
module Refinement {
  import opened Wrappers
  import opened Sequences
  import opened AclPolicy
  import opened Simulator
  import opened DevicePolicy

  /** How the read path understands the body of a rule the device shows. */
  type Reading = string -> Body

  function Read(rules: seq<DeviceRule>, reading: Reading): (r: seq<AclRule>)
    ensures |r| == |rules|
  {
    seq(|rules|, i requires 0 <= i < |rules| => AclRule(rules[i].line, reading(rules[i].body), rules[i].acl))
  }

  /** The line in the rendered command: the one stated, else the requested position. */
  function WireLine(command: Command, position: Option<int>): Option<int> {
    match command.line
    case Some(n) => Some(n)
    case None => position
  }

  /** The verdict of the access list read back after the addition was sent. */
  function OnDevice(rules: seq<DeviceRule>, acl: string, text: string, command: Command,
                    position: Option<int>, reading: Reading, flow: Flow): Verdict {
    EvaluateFlow(Read(InAcl(Added(rules, acl, WireLine(command, position), text), acl), reading), flow)
  }

  lemma {:induction false} OpenGapWithinAcl(rules: seq<DeviceRule>, acl: string, line: int)
    ensures InAcl(OpenGap(rules, acl, line), acl) == OpenGap(InAcl(rules, acl), acl, line)
  {
    if rules != [] {
      var front := rules[..|rules| - 1];
      OpenGapWithinAcl(front, acl, line);
      var shifted := OpenGap(rules, acl, line);
      assert shifted[..|rules| - 1] == OpenGap(front, acl, line);
    }
  }

  lemma {:induction false} InAclIsOneList(rules: seq<DeviceRule>, acl: string)
    ensures forall i | 0 <= i < |InAcl(rules, acl)| :: InAcl(rules, acl)[i].acl == acl
  {
    if rules != [] {
      InAclIsOneList(rules[..|rules| - 1], acl);
    }
  }

  /** The access list after an addition, read back: the old rules pushed down, then the new one. */
  lemma ReadAfterAdd(rules: seq<DeviceRule>, acl: string, line: Option<int>, text: string, reading: Reading)
    requires !Present(rules, acl, text)
    ensures var base, after := Read(InAcl(rules, acl), reading),
            Read(InAcl(Added(rules, acl, line, text), acl), reading);
            && |after| == |base| + 1
            && (forall i | 0 <= i < |base| ::
                  && after[i].body == base[i].body
                  && after[i].line == if line.Some? && base[i].line >= line.value then base[i].line + 1
                    else base[i].line)
            && after[|base|].body == reading(text)
            && after[|base|].line == line.GetOr(MaxOf(Lines(base)) + 10)
  {
    hide Present, InAcl, Added, Before, StableOrder;
    var listed := InAcl(rules, acl);
    InAclIsOneList(rules, acl);
    AddedInAcl(rules, acl, line, text);
    assert Lines(Read(listed, reading)) == LinesOf(listed);
  }

  lemma AddedInAcl(rules: seq<DeviceRule>, acl: string, line: Option<int>, text: string)
    requires !Present(rules, acl, text)
    ensures InAcl(Added(rules, acl, line, text), acl) ==
              (if line.Some? then OpenGap(InAcl(rules, acl), acl, line.value) else InAcl(rules, acl)) +
              [DeviceRule(acl, line.GetOr(MaxOf(LinesOf(InAcl(rules, acl))) + 10), text, 0)]
  {
    hide Present, Added, OpenGap, InAcl, LinesOf, MaxOf;
    var placed := DeviceRule(acl, line.GetOr(MaxLine(rules, acl) + 10), text, 0);
    AddedIsMoved(rules, acl, line, text);
    match line
    case None => LastOfAcl(rules, placed);
    case Some(p) =>
      LastOfAcl(OpenGap(rules, acl, p), placed);
      OpenGapWithinAcl(rules, acl, p);
  }

  lemma AddedIsMoved(rules: seq<DeviceRule>, acl: string, line: Option<int>, text: string)
    requires !Present(rules, acl, text)
    ensures Added(rules, acl, line, text) ==
              (if line.Some? then OpenGap(rules, acl, line.value) else rules) +
              [DeviceRule(acl, line.GetOr(MaxLine(rules, acl) + 10), text, 0)]
  {
    hide Present, OpenGap, MaxLine;
  }

  lemma LastOfAcl(rules: seq<DeviceRule>, rule: DeviceRule)
    ensures InAcl(rules + [rule], rule.acl) == InAcl(rules, rule.acl) + [rule]
  {
    assert (rules + [rule])[..|rules|] == rules;
  }

  lemma SameOrderSameVerdict(a: seq<AclRule>, b: seq<AclRule>, flow: Flow)
    requires |a| == |b|
    requires forall i | 0 <= i < |a| :: a[i].body == b[i].body
    requires forall i: nat, j: nat | i < |a| && j < |a| :: Before(Lines(a), i, j) <==> Before(Lines(b), i, j)
    ensures EvaluateFlow(a, flow) == EvaluateFlow(b, flow)
  {
    hide EvaluateFlow, Matches;
    EvaluateIsFirstMatch(a, flow);
    EvaluateIsFirstMatch(b, flow);
    var v := EvaluateFlow(a, flow);
    if v.hit.Some? {
      assert Decides(a, flow, v.hit.value);
      assert Decides(b, flow, v.hit.value);
    } else {
      assert Unmatched(b, flow);
    }
  }

  ghost predicate NothingAbove(base: seq<AclRule>, rule: AclRule, flow: Flow) {
    Matches(rule.body, flow) && forall j: nat | j < |base| && base[j].line < rule.line :: !Matches(base[j].body, flow)
  }

  /** The proposal and a rule already at its line both want the flow, and nothing above does. */
  ghost predicate Contested(base: seq<AclRule>, rule: AclRule, flow: Flow) {
    && NothingAbove(base, rule, flow)
    && exists j: nat :: j < |base| && base[j].line == rule.line && Matches(base[j].body, flow)
  }

  /** On the device an addition that takes effect decides whatever no rule on a strictly higher line
      takes; one whose body the list already has changes nothing. */
  lemma DeviceVerdict(rules: seq<DeviceRule>, acl: string, text: string, command: Command,
                      position: Option<int>, reading: Reading, flow: Flow)
    requires reading(text) == command.body
    ensures var base := Read(InAcl(rules, acl), reading);
            var rule := Spliced(command, position, base);
            OnDevice(rules, acl, text, command, position, reading, flow) ==
              if !Present(rules, acl, text) && NothingAbove(base, rule, flow)
              then Verdict(command.body.action, Some(|base|)) else EvaluateFlow(base, flow)
  {
    hide EvaluateFlow, Matches, Present;
    if !Present(rules, acl, text) {
      var base := Read(InAcl(rules, acl), reading);
      var rule := Spliced(command, position, base);
      var line := WireLine(command, position);
      var after := Read(InAcl(Added(rules, acl, line, text), acl), reading);
      ReadAfterAdd(rules, acl, line, text, reading);
      PushedDown(base, rule, after, line, flow);
    }
  }

  lemma PushedDown(base: seq<AclRule>, rule: AclRule, after: seq<AclRule>, line: Option<int>, flow: Flow)
    requires |after| == |base| + 1
    requires forall i | 0 <= i < |base| ::
               && after[i].body == base[i].body
               && after[i].line == if line.Some? && base[i].line >= line.value then base[i].line + 1 else base[i].line
    requires after[|base|].body == rule.body && after[|base|].line == rule.line
    requires rule.line == line.GetOr(MaxOf(Lines(base)) + 10)
    ensures EvaluateFlow(after, flow) ==
              if NothingAbove(base, rule, flow) then Verdict(rule.body.action, Some(|base|))
                else EvaluateFlow(base, flow)
  {
    hide EvaluateFlow, Matches, NothingAbove, ProposalFirst;
    var pushed, placed := after[..|base|], after[|base|];
    assert after == pushed + [placed];
    SameOrderSameVerdict(base, pushed, flow);
    SplicingOneRule(pushed, placed, flow);
    FirstPushedIsNothingAbove(base, rule, pushed, placed, line, flow);
  }

  lemma FirstPushedIsNothingAbove(base: seq<AclRule>, rule: AclRule, pushed: seq<AclRule>, placed: AclRule,
                                  line: Option<int>, flow: Flow)
    requires |pushed| == |base| && placed.body == rule.body && placed.line == rule.line
    requires forall i | 0 <= i < |base| ::
               && pushed[i].body == base[i].body
               && pushed[i].line == if line.Some? && base[i].line >= line.value then base[i].line + 1 else base[i].line
    requires rule.line == line.GetOr(MaxOf(Lines(base)) + 10)
    ensures ProposalFirst(pushed, placed, flow) <==> NothingAbove(base, rule, flow)
  {
    hide Matches;
    assert forall j: nat | j < |base| :: Lines(base)[j] == base[j].line;
    assert forall j: nat | j < |base| :: pushed[j].line <= placed.line <==> base[j].line < rule.line;
  }

  /**
   Simulation and device give a flow the same verdict by the same rule exactly when the
   addition takes effect and the flow is not contested, or the body was already there and
   the proposal would not have decided.  Contested, the device lets the proposal decide.
   A pass by the proposed rule holds on the device exactly when the addition takes effect
   or the old rules give it anyway.
   */
  lemma SimulationRefinesDevice(rules: seq<DeviceRule>, acl: string, text: string, command: Command,
                                position: Option<int>, reading: Reading, flow: Flow)
    requires reading(text) == command.body
    ensures var base := Read(InAcl(rules, acl), reading);
            var rule := Spliced(command, position, base);
            var simulated := EvaluateFlow(base + [rule], flow);
            var device := OnDevice(rules, acl, text, command, position, reading, flow);
            var held := Present(rules, acl, text);
            && (device == simulated
                <==> if held then !ProposalFirst(base, rule, flow) else !Contested(base, rule, flow))
            && (!held && Contested(base, rule, flow) ==> device == Verdict(command.body.action, Some(|base|)))
            && (device.action == simulated.action <==>
                  if held then ProposalFirst(base, rule, flow)
                    ==> EvaluateFlow(base, flow).action == command.body.action
                  else Contested(base, rule, flow) ==> simulated.action == command.body.action)
            && (Carries(base, rule, flow) ==>
                  && (device == simulated <==> !held)
                  && (device.action == Permit <==> !held || EvaluateFlow(base, flow).action == Permit))
  {
    hide EvaluateFlow, Matches, Present, OnDevice;
    var base := Read(InAcl(rules, acl), reading);
    var rule := Spliced(command, position, base);
    DeviceVerdict(rules, acl, text, command, position, reading, flow);
    SplicingOneRule(base, rule, flow);
    CarriesMeansFirst(base, rule, flow);
    ContestedOrNot(base, rule, flow);
    EvaluateIsFirstMatch(base, flow);
  }

  lemma ContestedOrNot(base: seq<AclRule>, rule: AclRule, flow: Flow)
    ensures Contested(base, rule, flow) <==> NothingAbove(base, rule, flow) && !ProposalFirst(base, rule, flow)
    ensures ProposalFirst(base, rule, flow) ==> NothingAbove(base, rule, flow)
  {
  }

  /** At a free line, and when appending, a flow tells the simulation from the device exactly when
      the proposal would have decided it and the device already has the body. */
  lemma FreeLineIsExact(rules: seq<DeviceRule>, acl: string, text: string, command: Command,
                        position: Option<int>, reading: Reading, flow: Flow)
    requires reading(text) == command.body
    requires WireLine(command, position).Some? ==>
               forall i | 0 <= i < |InAcl(rules, acl)| :: InAcl(rules, acl)[i].line != WireLine(command, position).value
    ensures var base := Read(InAcl(rules, acl), reading);
            var rule := Spliced(command, position, base);
            EvaluateFlow(base + [rule], flow) == OnDevice(rules, acl, text, command, position, reading, flow) <==>
              !(Present(rules, acl, text) && ProposalFirst(base, rule, flow))
  {
    hide EvaluateFlow, Matches, OnDevice, Present;
    var base := Read(InAcl(rules, acl), reading);
    assert forall j: nat | j < |base| :: Lines(base)[j] == base[j].line == InAcl(rules, acl)[j].line;
    SimulationRefinesDevice(rules, acl, text, command, position, reading, flow);
  }

  /** They do differ: a permit proposed at the line of a deny fails in simulation and passes on the device. */
  lemma ContestedFlowsCanDiffer(reading: Reading)
    requires reading("deny") == NOBODY && reading("permit") == EVERYONE
    ensures var rules := [DeviceRule("A", 10, "deny", 0)];
            var base := Read(InAcl(rules, "A"), reading);
            var command := Command(None, EVERYONE);
            && !Present(rules, "A", "permit")
            && Contested(base, Spliced(command, Some(10), base), REACHABLE)
            && EvaluateFlow(base + [Spliced(command, Some(10), base)], REACHABLE).action == Deny
            && OnDevice(rules, "A", "permit", command, Some(10), reading, REACHABLE).action == Permit
  {
    var rules, command := [DeviceRule("A", 10, "deny", 0)], Command(None, EVERYONE);
    assert InAcl(rules, "A") == rules;
    assert !Names(rules[0], "A", "permit");
    assert !Present(rules, "A", "permit");
    hide OnDevice, Present, InAcl;
    var base := Read(rules, reading);
    var rule := Spliced(command, Some(10), base);
    assert Matches(base[0].body, REACHABLE) && Matches(rule.body, REACHABLE);
    assert Decides(base + [rule], REACHABLE, 0);
    hide EvaluateFlow, Matches;
    SimulationRefinesDevice(rules, "A", "permit", command, Some(10), reading, REACHABLE);
    EvaluateIsFirstMatch(base + [rule], REACHABLE);
  }

  /** And at a free line: a permit held below a deny, proposed again above it, passes in simulation only. */
  lemma HeldPermitCanDiffer(reading: Reading)
    requires reading("deny") == NOBODY && reading("permit") == PAIR
    ensures var base := Read(InAcl(HELD, "A"), reading);
            var command := Command(None, PAIR);
            var rule := Spliced(command, Some(5), base);
            && Present(HELD, "A", "permit") && Carries(base, rule, REACHABLE)
            && EvaluateFlow(base + [rule], REACHABLE).action == Permit
            && OnDevice(HELD, "A", "permit", command, Some(5), reading, REACHABLE).action == Deny
  {
    var command := Command(None, PAIR);
    assert HELD[..1] == [HELD[0]] && HELD[..1][..0] == [];
    assert InAcl(HELD[..1], "A") == HELD[..1];
    assert InAcl(HELD, "A") == HELD;
    var base := Read(HELD, reading);
    var rule := Spliced(command, Some(5), base);
    PairMatches();
    assert Names(HELD[1], "A", "permit");
    hide OnDevice;
    SplicingOneRule(base, rule, REACHABLE);
    CarriesMeansFirst(base, rule, REACHABLE);
    assert Decides(base, REACHABLE, 0);
    EvaluateIsFirstMatch(base, REACHABLE);
    SimulationRefinesDevice(HELD, "A", "permit", command, Some(5), reading, REACHABLE);
  }

  lemma PairMatches()
    ensures Matches(PAIR, REACHABLE) && Matches(NOBODY, REACHABLE)
  {
    assert BlockSize(32) == 1;
  }
}
