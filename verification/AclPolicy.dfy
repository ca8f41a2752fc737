/**
 The rule model and first-match evaluation of apps/api/app/firewall/policy.py.

 An IPv4 address is a number below 2^32 and a network is a prefix of it
 (RFC 4632, section 3.1).  Rules are values, so the identity test the simulator
 makes on a hit is modelled by the hit's index in the list that was evaluated.
 */
module AclPolicy {
  import opened Wrappers
  import opened Sequences

  const ADDRESS_SPACE: nat := 0x1_0000_0000

  type Address = a: nat | a < ADDRESS_SPACE
  type PrefixLength = p: nat | p <= 32

  /** `any`, a network, or text that `ip_network` rejects. */
  datatype Spec = AnyHost | Net(address: Address, prefix: PrefixLength) | Malformed(text: string)

  /** The address field of a flow: an IPv4 address, or text that is not one. */
  datatype Host = V4(address: Address) | NotV4(text: string)

  datatype Action = Permit | Deny | Unparsed

  datatype Body = Body(action: Action, proto: string, src: Spec, dst: Spec, port: Option<int>)

  datatype AclRule = AclRule(line: int, body: Body, acl: string)

  datatype Flow = Flow(src: Host, dst: Host, port: int, proto: string)

  datatype Verdict = Verdict(action: Action, hit: Option<nat>)

  // The rules and the flow that the examples use.
  const EVERYONE := Body(Permit, "ip", AnyHost, AnyHost, None)
  const PAIR := Body(Permit, "tcp", Net(0, 32), Net(1, 32), Some(443))
  const NOBODY := Body(Deny, "ip", AnyHost, AnyHost, None)
  const REACHABLE := Flow(V4(0), V4(1), 443, "tcp")

  function Pow2(n: nat): (r: nat)
    ensures r >= 1
  {
    if n == 0 then 1 else 2 * Pow2(n - 1)
  }

  function BlockSize(prefix: PrefixLength): (size: nat)
    ensures size >= 1
  {
    Pow2(32 - prefix)
  }

  /** Two addresses have the same network address under the prefix's mask. */
  predicate SameBlock(a: Address, b: Address, prefix: PrefixLength) {
    a / BlockSize(prefix) == b / BlockSize(prefix)
  }

  predicate Contains(spec: Spec, host: Host) {
    match spec
    case AnyHost => true
    case Net(address, prefix) => host.V4? && SameBlock(host.address, address, prefix)
    case Malformed(_) => false
  }

  /** Usable host count: network and broadcast addresses of real subnets are not counted. */
  function Breadth(spec: Spec): int {
    match spec
    case AnyHost => ADDRESS_SPACE
    case Malformed(_) => ADDRESS_SPACE
    case Net(_, prefix) => if prefix >= 31 then BlockSize(prefix) else BlockSize(prefix) - 2
  }

  predicate Matches(body: Body, flow: Flow) {
    && body.action != Unparsed
    && (body.proto == "ip" || body.proto == "any" || body.proto == flow.proto)
    && (body.port.Some? ==> body.port.value == flow.port)
    && Contains(body.src, flow.src)
    && Contains(body.dst, flow.dst)
  }

  // ---------------------------------------------------------------------
  // Python's stable sort by line, as an order on indices
  // ---------------------------------------------------------------------

  /** Index i is tried before index j: a lower line, or the same line and earlier in the list. */
  predicate Before(lines: seq<int>, i: nat, j: nat)
    requires i < |lines| && j < |lines|
  {
    lines[i] < lines[j] || (lines[i] == lines[j] && i < j)
  }

  predicate Indices(order: seq<nat>, n: nat) {
    forall a | 0 <= a < |order| :: order[a] < n
  }

  function Insert(lines: seq<int>, order: seq<nat>, k: nat): (r: seq<nat>)
    requires k < |lines| && Indices(order, |lines|)
    ensures forall i: nat :: i in r <==> i in order || i == k
  {
    if order == [] then [k]
    else if lines[order[0]] <= lines[k] then [order[0]] + Insert(lines, order[1..], k)
    else [k] + order
  }

  /** The first n indices in stable order of their lines. */
  function StableOrder(lines: seq<int>, n: nat): (order: seq<nat>)
    requires n <= |lines|
    ensures forall i: nat :: i in order <==> i < n
    ensures Indices(order, n)
  {
    if n == 0 then []
    else
      var order := Insert(lines, StableOrder(lines, n - 1), n - 1);
      assert forall a | 0 <= a < |order| :: order[a] in order;
      order
  }

  ghost predicate InOrder(lines: seq<int>, order: seq<nat>) {
    && Indices(order, |lines|)
    && (forall a, b | 0 <= a < b < |order| :: Before(lines, order[a], order[b]))
  }

  lemma {:induction false} InsertKeepsOrder(lines: seq<int>, order: seq<nat>, k: nat)
    requires k < |lines|
    requires InOrder(lines, order) && Indices(order, k)
    ensures InOrder(lines, Insert(lines, order, k))
  {
    if order != [] && lines[order[0]] <= lines[k] {
      InsertKeepsOrder(lines, order[1..], k);
      var rest := Insert(lines, order[1..], k);
      forall b | 0 <= b < |rest| ensures Before(lines, order[0], rest[b]) {
        assert rest[b] in rest;
        if rest[b] != k {
          assert rest[b] in order[1..];
          var c :| 0 <= c < |order[1..]| && order[1..][c] == rest[b];
          assert Before(lines, order[0], order[c + 1]);
        }
      }
    }
  }

  lemma {:induction false} StableOrderIsSorted(lines: seq<int>, n: nat)
    requires n <= |lines|
    ensures InOrder(lines, StableOrder(lines, n))
  {
    if n > 0 {
      StableOrderIsSorted(lines, n - 1);
      InsertKeepsOrder(lines, StableOrder(lines, n - 1), n - 1);
    }
  }

  // ---------------------------------------------------------------------
  // First match
  // ---------------------------------------------------------------------

  function Lines(rules: seq<AclRule>): (lines: seq<int>)
    ensures |lines| == |rules|
  {
    seq(|rules|, i requires 0 <= i < |rules| => rules[i].line)
  }

  function FirstMatch(rules: seq<AclRule>, order: seq<nat>, flow: Flow): (r: Option<nat>)
    requires Indices(order, |rules|)
    ensures r.Some? ==> r.value < |rules|
  {
    if order == [] then None
    else if Matches(rules[order[0]].body, flow) then Some(order[0])
    else FirstMatch(rules, order[1..], flow)
  }

  /** The verdict of the least matching rule, or the implicit deny. */
  function EvaluateFlow(rules: seq<AclRule>, flow: Flow): Verdict {
    match FirstMatch(rules, StableOrder(Lines(rules), |rules|), flow)
    case Some(i) => Verdict(rules[i].body.action, Some(i))
    case None => Verdict(Deny, None)
  }

  /** Rule i matches, and every other matching rule comes after it. */
  ghost predicate Decides(rules: seq<AclRule>, flow: Flow, i: nat) {
    && i < |rules|
    && Matches(rules[i].body, flow)
    && forall j: nat | j < |rules| && Matches(rules[j].body, flow) ::
         j == i || Before(Lines(rules), i, j)
  }

  ghost predicate Unmatched(rules: seq<AclRule>, flow: Flow) {
    forall j: nat | j < |rules| :: !Matches(rules[j].body, flow)
  }

  lemma {:induction false} FirstMatchScans(rules: seq<AclRule>, order: seq<nat>, flow: Flow)
    requires InOrder(Lines(rules), order)
    ensures var r := FirstMatch(rules, order, flow);
            && (r == None ==> forall j: nat | j in order :: !Matches(rules[j].body, flow))
            && (r.Some? ==>
                  && r.value in order
                  && Matches(rules[r.value].body, flow)
                  && forall j: nat | j in order && Matches(rules[j].body, flow) ::
                       j == r.value || Before(Lines(rules), r.value, j))
  {
    if order != [] {
      FirstMatchScans(rules, order[1..], flow);
      forall j: nat | j in order ensures j == order[0] || (j in order[1..] && Before(Lines(rules), order[0], j)) {
        var k :| 0 <= k < |order| && order[k] == j;
        if k > 0 {
          assert order[1..][k - 1] == j;
        }
      }
    }
  }

  /**
   Evaluation finds the least matching rule under (line, position in the list),
   and reports the implicit deny exactly when nothing matches.
   */
  lemma EvaluateIsFirstMatch(rules: seq<AclRule>, flow: Flow)
    ensures var v := EvaluateFlow(rules, flow);
            && (v.hit == None <==> Unmatched(rules, flow))
            && (v.hit == None ==> v.action == Deny)
            && (forall i: nat :: Decides(rules, flow, i) <==> v.hit == Some(i))
            && (v.hit.Some? ==> v.hit.value < |rules| && v.action == rules[v.hit.value].body.action)
  {
    var order := StableOrder(Lines(rules), |rules|);
    StableOrderIsSorted(Lines(rules), |rules|);
    FirstMatchScans(rules, order, flow);
    assert forall j: nat | j < |rules| :: j in order;
  }

  /** Nothing in the base at or above the proposal's line takes the flow first. */
  ghost predicate ProposalFirst(base: seq<AclRule>, rule: AclRule, flow: Flow) {
    && Matches(rule.body, flow)
    && forall j: nat | j < |base| && base[j].line <= rule.line :: !Matches(base[j].body, flow)
  }

  /**
   Splicing one rule in: it decides exactly the flows it is first for, and every
   other flow keeps its verdict and its deciding rule.
   */
  lemma SplicingOneRule(base: seq<AclRule>, rule: AclRule, flow: Flow)
    ensures var v := EvaluateFlow(base + [rule], flow);
            && (ProposalFirst(base, rule, flow) <==> v.hit == Some(|base|))
            && (ProposalFirst(base, rule, flow) ==> v.action == rule.body.action)
            && (!ProposalFirst(base, rule, flow) ==> v == EvaluateFlow(base, flow))
  {
    hide EvaluateFlow, Matches;
    var all := base + [rule];
    EvaluateIsFirstMatch(all, flow);
    EvaluateIsFirstMatch(base, flow);
    assert all[|base|] == rule;
    assert forall j: nat | j < |base| :: all[j] == base[j];
    var w := EvaluateFlow(base, flow);
    if ProposalFirst(base, rule, flow) {
      assert Decides(all, flow, |base|);
    } else if w.hit.Some? {
      assert Decides(base, flow, w.hit.value);
      assert Decides(all, flow, w.hit.value) by {
        var i := w.hit.value;
        if Matches(rule.body, flow) {
          var j: nat :| j < |base| && base[j].line <= rule.line && Matches(base[j].body, flow);
          assert j == i || Before(Lines(base), i, j);
        }
      }
    } else {
      assert Unmatched(all, flow);
    }
  }

  // ---------------------------------------------------------------------
  // Reading a policy already sorted
  // ---------------------------------------------------------------------

  /** The rules as a device lists them: stably sorted by line. */
  function Sorted(rules: seq<AclRule>): (r: seq<AclRule>)
  {
    var order := StableOrder(Lines(rules), |rules|);
    seq(|order|, k requires 0 <= k < |order| => assert order[k] in order; rules[order[k]])
  }

  /** Sorting a policy before evaluating it changes neither verdict nor deciding rule. */
  lemma SortingFirstChangesNothing(rules: seq<AclRule>, flow: Flow)
    ensures var v, w := EvaluateFlow(rules, flow), EvaluateFlow(Sorted(rules), flow);
            && v.action == w.action
            && (v.hit.None? <==> w.hit.None?)
            && (v.hit.Some? ==>
                  && v.hit.value < |rules|
                  && w.hit.value < |Sorted(rules)|
                  && rules[v.hit.value] == Sorted(rules)[w.hit.value])
  {
    hide EvaluateFlow, Matches;
    var order := StableOrder(Lines(rules), |rules|);
    var sorted := Sorted(rules);
    StableOrderIsSorted(Lines(rules), |rules|);
    EvaluateIsFirstMatch(rules, flow);
    EvaluateIsFirstMatch(sorted, flow);
    var v := EvaluateFlow(rules, flow);
    if v.hit.Some? {
      var i := v.hit.value;
      assert Decides(rules, flow, i);
      assert i in order;
      var k: nat :| k < |order| && order[k] == i;
      assert Decides(sorted, flow, k) by {
        forall j: nat | j < |sorted| && Matches(sorted[j].body, flow)
          ensures j == k || Before(Lines(sorted), k, j)
        {
          assert order[j] in order;
          assert order[j] == i || Before(Lines(rules), i, order[j]);
          assert k < j ==> Before(Lines(rules), order[k], order[j]);
        }
      }
    } else {
      assert Unmatched(sorted, flow) by {
        forall j: nat | j < |sorted| ensures !Matches(sorted[j].body, flow) {
          assert order[j] in order;
        }
      }
    }
  }

  // ---------------------------------------------------------------------
  // A policy given as groups of rules
  // ---------------------------------------------------------------------

  /** Element (i, k) is tried before element (j, m) when the groups are laid end to end. */
  predicate Precedes(groups: seq<seq<AclRule>>, i: nat, k: nat, j: nat, m: nat)
    requires i < |groups| && k < |groups[i]| && j < |groups| && m < |groups[j]|
  {
    || groups[i][k].line < groups[j][m].line
    || (groups[i][k].line == groups[j][m].line && (i < j || (i == j && k < m)))
  }

  predicate Hits(groups: seq<seq<AclRule>>, flow: Flow, j: nat, m: nat) {
    j < |groups| && m < |groups[j]| && Matches(groups[j][m].body, flow)
  }

  /** Element k of group i is the first match of the groups laid end to end. */
  ghost predicate GroupDecides(groups: seq<seq<AclRule>>, flow: Flow, i: nat, k: nat) {
    && Hits(groups, flow, i, k)
    && forall j: nat, m: nat | Hits(groups, flow, j, m) ::
         (j == i && m == k) || Precedes(groups, i, k, j, m)
  }

  lemma OffsetsAreOrdered(groups: seq<seq<AclRule>>, i: nat, k: nat, j: nat, m: nat)
    requires i < |groups| && k < |groups[i]| && j < |groups| && m < |groups[j]|
    requires i < j || (i == j && k < m)
    ensures Offset(groups, i) + k < Offset(groups, j) + m
  {
    FlattenAt(groups, i, k);
    if i < j {
      OffsetsGrow(groups, i + 1, j);
    }
  }

  lemma PrecedesMeansBefore(groups: seq<seq<AclRule>>, i: nat, k: nat, j: nat, m: nat)
    requires i < |groups| && k < |groups[i]| && j < |groups| && m < |groups[j]|
    requires Precedes(groups, i, k, j, m)
    requires Offset(groups, i) + k < |Flatten(groups)| && Offset(groups, j) + m < |Flatten(groups)|
    requires Flatten(groups)[Offset(groups, i) + k] == groups[i][k]
    requires Flatten(groups)[Offset(groups, j) + m] == groups[j][m]
    ensures Before(Lines(Flatten(groups)), Offset(groups, i) + k, Offset(groups, j) + m)
  {
    if groups[i][k].line == groups[j][m].line {
      OffsetsAreOrdered(groups, i, k, j, m);
    }
  }

  lemma GroupedEvaluation(groups: seq<seq<AclRule>>, flow: Flow, i: nat, k: nat)
    requires GroupDecides(groups, flow, i, k)
    ensures EvaluateFlow(Flatten(groups), flow) == Verdict(groups[i][k].body.action, Some(Offset(groups, i) + k))
  {
    hide EvaluateFlow, Matches, Flatten;
    var all := Flatten(groups);
    var at := Offset(groups, i) + k;
    FlattenAt(groups, i, k);
    forall n: nat | n < |all| && Matches(all[n].body, flow)
      ensures n == at || Before(Lines(all), at, n)
    {
      var j, m := FlattenOwner(groups, n);
      FlattenAt(groups, j, m);
      assert Hits(groups, flow, j, m);
      if n != at {
        PrecedesMeansBefore(groups, i, k, j, m);
      }
    }
    assert Decides(all, flow, at);
    EvaluateIsFirstMatch(all, flow);
  }

  lemma GroupedEvaluationUnmatched(groups: seq<seq<AclRule>>, flow: Flow)
    requires forall j: nat, m: nat :: !Hits(groups, flow, j, m)
    ensures EvaluateFlow(Flatten(groups), flow) == Verdict(Deny, None)
  {
    hide EvaluateFlow, Matches, Flatten;
    var all := Flatten(groups);
    EvaluateIsFirstMatch(all, flow);
    forall n: nat | n < |all| ensures !Matches(all[n].body, flow) {
      var j, m := FlattenOwner(groups, n);
      FlattenAt(groups, j, m);
      assert !Hits(groups, flow, j, m);
    }
    assert Unmatched(all, flow);
  }
}
