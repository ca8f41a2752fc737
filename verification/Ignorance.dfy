/**
 What a verdict is worth while some rules could not be modelled
 (apps/api/app/verify.py, `_unmodelled_above`).

 The truth behind an unmodelled rule is any list of rules at the same line.
 */
module Ignorance {
  import opened Wrappers
  import opened Sequences
  import opened AclPolicy
  import opened Simulator

  /** Group i is what rule i really stands for. */
  ghost predicate Fills(rules: seq<AclRule>, groups: seq<seq<AclRule>>) {
    && |groups| == |rules|
    && forall i | 0 <= i < |rules| ::
         if rules[i].body.action == Unparsed
         then forall k | 0 <= k < |groups[i]| :: groups[i][k].line == rules[i].line
         else groups[i] == [rules[i]]
  }

  ghost predicate NothingHiddenBefore(rules: seq<AclRule>, i: nat)
    requires i < |rules|
  {
    forall j: nat | j < |rules| && rules[j].body.action == Unparsed :: !Before(Lines(rules), j, i)
  }

  /** Rule i keeps deciding the flow however the unmodelled rules turn out. */
  lemma DeciderSurvives(rules: seq<AclRule>, groups: seq<seq<AclRule>>, flow: Flow, i: nat)
    requires Fills(rules, groups)
    requires EvaluateFlow(rules, flow).hit == Some(i) && i < |rules| && NothingHiddenBefore(rules, i)
    ensures EvaluateFlow(Flatten(groups), flow).action == EvaluateFlow(rules, flow).action
  {
    hide EvaluateFlow;
    EvaluateIsFirstMatch(rules, flow);
    assert Decides(rules, flow, i);
    assert groups[i] == [rules[i]];
    forall j: nat, m: nat | Hits(groups, flow, j, m)
      ensures (j == i && m == 0) || Precedes(groups, i, 0, j, m)
    {
      assert rules[j].body.action != Unparsed ==> groups[j] == [rules[j]];
      assert j == i || Before(Lines(rules), i, j);
    }
    assert Hits(groups, flow, i, 0);
    GroupedEvaluation(groups, flow, i, 0);
  }

  /** Rule j stands for "deny everything"; every other unmodelled rule stands for nothing. */
  ghost function WorstCase(rules: seq<AclRule>, j: nat): (groups: seq<seq<AclRule>>)
    ensures |groups| == |rules|
  {
    seq(|rules|, k requires 0 <= k < |rules| =>
      if rules[k].body.action != Unparsed then [rules[k]]
      else if k == j then [rules[k].(body := Body(Deny, "ip", AnyHost, AnyHost, None))]
      else [])
  }

  lemma HiddenDenyWins(rules: seq<AclRule>, flow: Flow, i: nat, j: nat)
    requires EvaluateFlow(rules, flow).hit == Some(i) && i < |rules|
    requires j < |rules| && rules[j].body.action == Unparsed && Before(Lines(rules), j, i)
    ensures Fills(rules, WorstCase(rules, j))
    ensures EvaluateFlow(Flatten(WorstCase(rules, j)), flow).action == Deny
  {
    hide EvaluateFlow;
    var groups := WorstCase(rules, j);
    EvaluateIsFirstMatch(rules, flow);
    assert Decides(rules, flow, i);
    forall k: nat, m: nat | Hits(groups, flow, k, m)
      ensures (k == j && m == 0) || Precedes(groups, j, 0, k, m)
    {
      if k != j {
        assert groups[k] == [rules[k]];
        assert k == i || Before(Lines(rules), i, k);
      }
    }
    assert Hits(groups, flow, j, 0);
    GroupedEvaluation(groups, flow, j, 0);
  }

  /**
   A permit survives every way the unmodelled rules could turn out exactly when
   none of them is tried before the rule that gave it.
   */
  lemma PermitSurvivesExactlyWhen(rules: seq<AclRule>, flow: Flow, i: nat)
    requires EvaluateFlow(rules, flow) == Verdict(Permit, Some(i)) && i < |rules|
    ensures (forall groups | Fills(rules, groups) :: EvaluateFlow(Flatten(groups), flow).action == Permit)
            <==> NothingHiddenBefore(rules, i)
  {
    if NothingHiddenBefore(rules, i) {
      forall groups | Fills(rules, groups) ensures EvaluateFlow(Flatten(groups), flow).action == Permit {
        DeciderSurvives(rules, groups, flow, i);
      }
    } else {
      var j: nat :| j < |rules| && rules[j].body.action == Unparsed && Before(Lines(rules), j, i);
      HiddenDenyWins(rules, flow, i, j);
    }
  }

  /**
   Once the simulator accepts a change, a flow the proposed rule carries stays
   permitted whatever the unmodelled rules of the device turn out to be.
   */
  lemma AcceptedCarriedFlowIsSafe(fw: Firewall, proposals: seq<Proposal>, flows: seq<Flow>,
                                  n: nat, flow: Flow, truth: seq<seq<AclRule>>)
    requires Verified(fw, proposals, flows).ok && n < |proposals| && flow in flows
    requires proposals[n].command.Some?
    requires var base := fw.Policy(proposals[n].device);
             var rule := Spliced(proposals[n].command.value, proposals[n].position, base);
             Fills(base, truth) && Carries(base, rule, flow)
    ensures var base := fw.Policy(proposals[n].device);
            var rule := Spliced(proposals[n].command.value, proposals[n].position, base);
            EvaluateFlow(Flatten(truth) + [rule], flow).action == Permit
  {
    hide EvaluateFlow, Verified;
    var base := fw.Policy(proposals[n].device);
    var rule := Spliced(proposals[n].command.value, proposals[n].position, base);
    AcceptedExactlyWhenSound(fw, proposals, flows);
    assert Acceptable(fw, proposals[n], flows);
    CarriesMeansFirst(base, rule, flow);
    CarriedFlowIsSafe(base, rule, flow, truth);
  }

  lemma CarriedFlowIsSafe(base: seq<AclRule>, rule: AclRule, flow: Flow, truth: seq<seq<AclRule>>)
    requires Fills(base, truth) && ProposalFirst(base, rule, flow)
    requires forall i | 0 <= i < |base| :: base[i].body.action == Unparsed ==> rule.line < base[i].line
    ensures EvaluateFlow(Flatten(truth) + [rule], flow).action == rule.body.action
  {
    hide EvaluateFlow;
    var groups, all := truth + [[rule]], base + [rule];
    assert groups[..|truth|] == truth;
    assert Flatten(groups) == Flatten(truth) + [rule];
    forall i | 0 <= i < |all| && all[i].body.action != Unparsed ensures groups[i] == [all[i]] {
      assert i < |base| ==> groups[i] == truth[i];
    }
    assert Fills(all, groups);
    SplicingOneRule(base, rule, flow);
    assert forall j: nat | j < |base| :: Lines(all)[j] == base[j].line;
    DeciderSurvives(all, groups, flow, |base|);
  }

  /** A device with an unmodelled rule above its permit, and a proposal above both. */
  const HIDING: seq<AclRule> := [
    AclRule(20, Body(Unparsed, "ip", AnyHost, AnyHost, None), ""),
    AclRule(30, Body(Permit, "ip", AnyHost, AnyHost, None), "")
  ]
  const IRRELEVANT := Command(Some(10), Body(Permit, "ip", Malformed(""), AnyHost, None))

  lemma IrrelevantProposalIsAccepted(flow: Flow)
    ensures EvaluateFlow(HIDING, flow) == Verdict(Permit, Some(1))
    ensures !ProposalFirst(HIDING, Spliced(IRRELEVANT, None, HIDING), flow)
    ensures Acceptable(Firewall(map["fw" := HIDING], {}), Proposal("fw", Some(IRRELEVANT), None), [flow])
  {
    var rule := Spliced(IRRELEVANT, None, HIDING);
    assert !Matches(rule.body, flow);
    SplicingOneRule(HIDING, rule, flow);
    EvaluateIsFirstMatch(HIDING, flow);
    assert Decides(HIDING, flow, 1);
    assert forall f | f in [flow] :: f == flow;
  }

  /**
   The protection is the proposal's only: a flow passing by an existing rule below
   an unmodelled one is accepted although the unmodelled rule may deny it.
   */
  lemma ExistingPassIsNotProtected(flow: Flow)
    ensures var fw := Firewall(map["fw" := HIDING], {});
            && Verified(fw, [Proposal("fw", Some(IRRELEVANT), None)], [flow]).ok
            && (exists truth :: Fills(HIDING, truth) &&
                  EvaluateFlow(Flatten(truth) + [Spliced(IRRELEVANT, None, HIDING)], flow).action == Deny)
  {
    hide EvaluateFlow, Verified, Acceptable;
    IrrelevantProposalIsAccepted(flow);
    AcceptedExactlyWhenSound(Firewall(map["fw" := HIDING], {}), [Proposal("fw", Some(IRRELEVANT), None)], [flow]);
    var truth := WorstCase(HIDING, 0);
    assert Before(Lines(HIDING), 0, 1);
    HiddenDenyWins(HIDING, flow, 1, 0);
    SplicingOneRule(Flatten(truth), Spliced(IRRELEVANT, None, HIDING), flow);
  }
}
