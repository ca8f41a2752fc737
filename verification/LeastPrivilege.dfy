/**
 The scope check of apps/api/app/verify.py against what the rule really matches:
 addresses are counted as sets, not by the check's own arithmetic.
 */
module LeastPrivilege {
  import opened Wrappers
  import opened Intervals
  import opened AclPolicy
  import opened Addresses
  import opened Simulator

  /** The usable count undercounts by at most a factor of two, and never for hosts. */
  lemma CoveredAtMostTwiceBreadth(spec: Spec)
    ensures 1 <= Breadth(spec)
    ensures |Covered(spec)| <= 2 * Breadth(spec)
    ensures Breadth(spec) == 1 <==> spec.Net? && spec.prefix == 32
  {
    match spec
    case AnyHost =>
      assert Covered(spec) == Interval(0, ADDRESS_SPACE);
      IntervalSize(0, ADDRESS_SPACE);
    case Malformed(_) =>
      assert Covered(spec) == {};
    case Net(address, prefix) =>
      NetworkSize(address, prefix);
      if prefix <= 30 {
        Pow2Adds(2, 30 - prefix);
        assert Pow2(2) == 4;
      } else {
        assert Pow2(1) == 2;
      }
  }

  /**
   An accepted rule that carries some evidence names a port and matches at most four
   times as many address pairs as distinct evidenced sources times destinations, unless
   the evidence names no source or no destination at all: then nothing is checked.
   */
  lemma AcceptedRuleIsNarrow(fw: Firewall, proposals: seq<Proposal>, flows: seq<Flow>, n: nat, flow: Flow)
    requires Verified(fw, proposals, flows).ok && n < |proposals| && proposals[n].command.Some?
    requires flow in flows
    requires var base := fw.Policy(proposals[n].device);
             Carries(base, Spliced(proposals[n].command.value, proposals[n].position, base), flow)
    ensures Sources(flows) != {} && Destinations(flows) != {} ==>
            var body := proposals[n].command.value.body;
            && body.port.Some?
            && Breadth(body.src) * Breadth(body.dst) <= |Sources(flows)| * |Destinations(flows)|
            && |Covered(body.src)| * |Covered(body.dst)| <= 4 * (|Sources(flows)| * |Destinations(flows)|)
  {
    hide EvaluateFlow, Matches, Verified, Covered;
    var base := fw.Policy(proposals[n].device);
    var rule := Spliced(proposals[n].command.value, proposals[n].position, base);
    AcceptedExactlyWhenSound(fw, proposals, flows);
    assert Acceptable(fw, proposals[n], flows);
    CarriesMeansFirst(base, rule, flow);
    var body := rule.body;
    CoveredAtMostTwiceBreadth(body.src);
    CoveredAtMostTwiceBreadth(body.dst);
    ProductBound(|Covered(body.src)|, |Covered(body.dst)|, Breadth(body.src), Breadth(body.dst));
  }

  lemma ProductBound(a: nat, b: nat, x: int, y: int)
    requires a <= 2 * x && b <= 2 * y
    ensures a * b <= 4 * (x * y)
  {
    assert a * b <= (2 * x) * b;
    assert (2 * x) * b <= (2 * x) * (2 * y);
  }

  /** The exception is real: evidence without a source lets `permit ip any any` through. */
  lemma EmptySourceIsUnchecked()
    ensures var fw, proposal := Firewall(map[], {}), Proposal("fw", Some(Command(None, EVERYONE)), None);
            var flow := Flow(NotV4(""), V4(1), 443, "tcp");
            && Verified(fw, [proposal], [flow]).ok
            && Carries([], Spliced(proposal.command.value, None, []), flow)
  {
    var fw, proposal := Firewall(map[], {}), Proposal("fw", Some(Command(None, EVERYONE)), None);
    var flow := Flow(NotV4(""), V4(1), 443, "tcp");
    var rule := Spliced(proposal.command.value, None, []);
    assert Matches(EVERYONE, flow) && fw.Policy("fw") == [];
    CarriesMeansFirst([], rule, flow);
    SplicingOneRule([], rule, flow);
    assert Sources([flow]) == {};
    hide EvaluateFlow, Matches, Verified;
    AcceptedExactlyWhenSound(fw, [proposal], [flow]);
    assert Acceptable(fw, [proposal][0], [flow]);
  }

  const QUAD := Body(Permit, "tcp", Net(4, 30), Net(8, 30), Some(443))

  const QUAD_COMMAND := Command(None, QUAD)
  const QUAD_RULE := Spliced(QUAD_COMMAND, None, [])

  /** Two sources of one /30 network, each denied to two destinations of another. */
  const FOUR_FLOWS := [
    Flow(V4(5), V4(9), 443, "tcp"), Flow(V4(5), V4(10), 443, "tcp"),
    Flow(V4(6), V4(9), 443, "tcp"), Flow(V4(6), V4(10), 443, "tcp")]

  /** The factor four is reached by an accepted change: it matches sixteen pairs for the four evidenced. */
  lemma FourTimesIsReached()
    ensures var fw, proposal := Firewall(map[], {}), Proposal("fw", Some(QUAD_COMMAND), None);
            && Verified(fw, [proposal], FOUR_FLOWS).ok
            && (forall f | f in FOUR_FLOWS :: Carries([], QUAD_RULE, f))
    ensures |Covered(QUAD.src)| * |Covered(QUAD.dst)| == 4 * (|Sources(FOUR_FLOWS)| * |Destinations(FOUR_FLOWS)|)
    ensures |Sources(FOUR_FLOWS)| == 2 && |Destinations(FOUR_FLOWS)| == 2
  {
    FourBySixteen();
    QuadIsNarrow();
    hide Covered, EvaluateFlow, Matches, Contains, Verified, Carries, NarrowEnough;
    var fw, proposal := Firewall(map[], {}), Proposal("fw", Some(QUAD_COMMAND), None);
    forall f | f in FOUR_FLOWS ensures Carries([], QUAD_RULE, f) && EvaluateFlow([] + [QUAD_RULE], f).action == Permit {
      QuadCarries(f);
    }
    QuadIsAcceptable(fw);
    AcceptedExactlyWhenSound(fw, [proposal], FOUR_FLOWS);
    hide Acceptable;
    assert forall i | 0 <= i < 1 :: [proposal][i] == proposal;
  }

  lemma QuadIsNarrow()
    ensures NarrowEnough(QUAD, FOUR_FLOWS)
  {
    FourBySixteen();
    hide Breadth, Covered, Sources, Destinations;
  }

  lemma QuadIsAcceptable(fw: Firewall)
    requires fw == Firewall(map[], {}) && NarrowEnough(QUAD, FOUR_FLOWS)
    requires forall f | f in FOUR_FLOWS :: EvaluateFlow([] + [QUAD_RULE], f).action == Permit
    ensures Acceptable(fw, Proposal("fw", Some(QUAD_COMMAND), None), FOUR_FLOWS)
  {
    hide EvaluateFlow, NarrowEnough, Matches;
    assert fw.Policy("fw") == [];
  }

  lemma QuadCarries(f: Flow)
    requires f in FOUR_FLOWS
    ensures Carries([], QUAD_RULE, f) && EvaluateFlow([] + [QUAD_RULE], f).action == Permit
  {
    QuadMatches(f);
    hide Contains, EvaluateFlow, Pow2;
    CarriesMeansFirst([], QUAD_RULE, f);
    SplicingOneRule([], QUAD_RULE, f);
  }

  lemma FourBySixteen()
    ensures Sources(FOUR_FLOWS) == {V4(5), V4(6)} && Destinations(FOUR_FLOWS) == {V4(9), V4(10)}
    ensures |Covered(QUAD.src)| == 4 && |Covered(QUAD.dst)| == 4
    ensures Breadth(QUAD.src) == 2 && Breadth(QUAD.dst) == 2
  {
    NetworkSize(4, 30);
    NetworkSize(8, 30);
    assert Pow2(2) == 4;
    assert V4(5) in Sources(FOUR_FLOWS) by {
      assert FOUR_FLOWS[0] in FOUR_FLOWS;
    }
    assert V4(6) in Sources(FOUR_FLOWS) by {
      assert FOUR_FLOWS[2] in FOUR_FLOWS;
    }
    assert V4(9) in Destinations(FOUR_FLOWS) by {
      assert FOUR_FLOWS[0] in FOUR_FLOWS;
    }
    assert V4(10) in Destinations(FOUR_FLOWS) by {
      assert FOUR_FLOWS[1] in FOUR_FLOWS;
    }
  }

  lemma QuadMatches(f: Flow)
    requires f in FOUR_FLOWS
    ensures Matches(QUAD, f)
  {
    assert BlockSize(30) == 4;
    hide Pow2, BlockSize;
  }

  /**
   With one IPv4 flow as evidence, an accepted rule that carries it matches that
   source, destination and port and nothing else, so every other flow keeps both
   its verdict and its deciding rule.
   */
  lemma AcceptedSingleFlowIsExact(fw: Firewall, proposal: Proposal, src: Address, dst: Address, port: int,
                                  proto: string, other: Flow)
    requires proposal.command.Some?
    requires var flow := Flow(V4(src), V4(dst), port, proto);
             var base := fw.Policy(proposal.device);
             && Verified(fw, [proposal], [flow]).ok
             && Carries(base, Spliced(proposal.command.value, proposal.position, base), flow)
    ensures Matches(proposal.command.value.body, other) <==>
              && other.src == V4(src) && other.dst == V4(dst) && other.port == port
              && proposal.command.value.body.proto in {"ip", "any", other.proto}
    ensures other.src != V4(src) || other.dst != V4(dst) || other.port != port ==>
              var base := fw.Policy(proposal.device);
              EvaluateFlow(base + [Spliced(proposal.command.value, proposal.position, base)], other)
                == EvaluateFlow(base, other)
  {
    hide EvaluateFlow, Verified;
    var flow := Flow(V4(src), V4(dst), port, proto);
    var base := fw.Policy(proposal.device);
    var rule := Spliced(proposal.command.value, proposal.position, base);
    AcceptedRuleIsNarrow(fw, [proposal], [flow], 0, flow);
    assert Sources([flow]) == {V4(src)} && Destinations([flow]) == {V4(dst)};
    CarriesMeansFirst(base, rule, flow);
    CoveredAtMostTwiceBreadth(rule.body.src);
    CoveredAtMostTwiceBreadth(rule.body.dst);
    ProductIsOne(Breadth(rule.body.src), Breadth(rule.body.dst));
    assert BlockSize(32) == 1;
    SplicingOneRule(base, rule, other);
  }

  lemma ProductIsOne(x: int, y: int)
    requires 1 <= x && 1 <= y && x * y <= 1
    ensures x == 1 && y == 1
  {
    assert x * (y - 1) >= 0 && (x - 1) * y >= 0;
  }
}
