/**
 The device of infra/fakeasa/server.py: an access list whose line numbers move.

 An addition makes room at its line, a removal closes the room it leaves, and a body
 the list already has is accepted without effect.
 */
module DevicePolicy {
  import opened Wrappers
  import opened Text
  import opened Sequences

  datatype DeviceRule = DeviceRule(acl: string, line: int, body: string, hits: nat)

  /** An example list: a deny on line 10 in front of a permit. */
  const HELD := [DeviceRule("A", 10, "deny", 0), DeviceRule("A", 20, "permit", 0)]

  /** Bodies are compared without regard to case. */
  predicate Names(rule: DeviceRule, acl: string, body: string) {
    rule.acl == acl && Lower(rule.body) == Lower(body)
  }

  function FindNamed(rules: seq<DeviceRule>, acl: string, body: string): (r: Option<nat>)
    ensures r.Some? ==> r.value < |rules| && Names(rules[r.value], acl, body)
    ensures r.Some? ==> forall i | 0 <= i < r.value :: !Names(rules[i], acl, body)
    ensures r.None? ==> forall i | 0 <= i < |rules| :: !Names(rules[i], acl, body)
  {
    if rules == [] then None
    else if Names(rules[0], acl, body) then Some(0)
    else match FindNamed(rules[1..], acl, body)
      case None => None
      case Some(i) => Some(i + 1)
  }

  predicate Present(rules: seq<DeviceRule>, acl: string, body: string) {
    FindNamed(rules, acl, body).Some?
  }

  /** The rules of one access list, in the order the device stores them. */
  function InAcl(rules: seq<DeviceRule>, acl: string): seq<DeviceRule> {
    if rules == [] then []
    else
      var last := rules[|rules| - 1];
      InAcl(rules[..|rules| - 1], acl) + (if last.acl == acl then [last] else [])
  }

  function LinesOf(rules: seq<DeviceRule>): (lines: seq<int>) {
    seq(|rules|, i requires 0 <= i < |rules| => rules[i].line)
  }

  /** The highest line of the access list, 0 when it has none. */
  function MaxLine(rules: seq<DeviceRule>, acl: string): int {
    MaxOf(LinesOf(InAcl(rules, acl)))
  }

  function Lowered(rule: DeviceRule, acl: string, line: int): DeviceRule {
    if rule.acl == acl && rule.line >= line then rule.(line := rule.line + 1) else rule
  }

  function Raised(rule: DeviceRule, acl: string, line: int): DeviceRule {
    if rule.acl == acl && rule.line > line then rule.(line := rule.line - 1) else rule
  }

  function OpenGap(rules: seq<DeviceRule>, acl: string, line: int): (r: seq<DeviceRule>)
    ensures |r| == |rules|
  {
    seq(|rules|, i requires 0 <= i < |rules| => Lowered(rules[i], acl, line))
  }

  function CloseGap(rules: seq<DeviceRule>, acl: string, line: int): (r: seq<DeviceRule>)
    ensures |r| == |rules|
  {
    seq(|rules|, i requires 0 <= i < |rules| => Raised(rules[i], acl, line))
  }

  /** What `add` leaves behind. */
  function Added(rules: seq<DeviceRule>, acl: string, line: Option<int>, body: string): seq<DeviceRule> {
    if Present(rules, acl, body) then rules else Stored(rules, acl, line, body)
  }

  /** Adding without the duplicate test: a device that would keep two copies. */
  function Stored(rules: seq<DeviceRule>, acl: string, line: Option<int>, body: string): seq<DeviceRule> {
    match line
    case Some(p) => OpenGap(rules, acl, p) + [DeviceRule(acl, p, body, 0)]
    case None => rules + [DeviceRule(acl, MaxLine(rules, acl) + 10, body, 0)]
  }

  function DropAt(rules: seq<DeviceRule>, i: nat): (r: seq<DeviceRule>)
    requires i < |rules|
    ensures |r| == |rules| - 1
  {
    CloseGap(rules[..i] + rules[i + 1..], rules[i].acl, rules[i].line)
  }

  /** What `remove` leaves behind: each rule of that body goes, and each one's gap closes in turn. */
  function Removed(rules: seq<DeviceRule>, acl: string, body: string): (r: seq<DeviceRule>)
    decreases |rules|
  {
    match FindNamed(rules, acl, body)
    case None => rules
    case Some(i) => Removed(DropAt(rules, i), acl, body)
  }

  class Policy {
    var rules: seq<DeviceRule>

    constructor (seed: seq<DeviceRule>)
      ensures rules == seed
    {
      rules := seed;
    }

    method Add(acl: string, line: Option<int>, body: string)
      modifies this
      ensures rules == Added(old(rules), acl, line, body)
    {
      if Present(rules, acl, body) {
        return;
      }
      var placement := match line case Some(p) => p case None => MaxLine(rules, acl) + 10;
      if line.Some? {
        PushDown(acl, line.value);
      }
      rules := rules + [DeviceRule(acl, placement, body, 0)];
    }

    /** The loop of `add`: everything at or below the line moves down one. */
    method PushDown(acl: string, line: int)
      modifies this
      ensures rules == OpenGap(old(rules), acl, line)
    {
      for i := 0 to |rules|
        invariant |rules| == |old(rules)|
        invariant forall k | 0 <= k < i :: rules[k] == Lowered(old(rules)[k], acl, line)
        invariant forall k | i <= k < |rules| :: rules[k] == old(rules)[k]
      {
        if rules[i].acl == acl && rules[i].line >= line {
          rules := rules[i := rules[i].(line := rules[i].line + 1)];
        }
      }
    }

    /** The inner loop of `remove`: everything below the line moves up one. */
    method PullUp(acl: string, line: int)
      modifies this
      ensures rules == CloseGap(old(rules), acl, line)
    {
      for i := 0 to |rules|
        invariant |rules| == |old(rules)|
        invariant forall k | 0 <= k < i :: rules[k] == Raised(old(rules)[k], acl, line)
        invariant forall k | i <= k < |rules| :: rules[k] == old(rules)[k]
      {
        if rules[i].acl == acl && rules[i].line > line {
          rules := rules[i := rules[i].(line := rules[i].line - 1)];
        }
      }
    }

    /** Returns whether the device complained that there is nothing to remove. */
    method Remove(acl: string, body: string) returns (missing: bool)
      modifies this
      ensures rules == Removed(old(rules), acl, body)
      ensures missing <==> !Present(old(rules), acl, body)
    {
      missing := !Present(rules, acl, body);
      var doomed := FindNamed(rules, acl, body);
      while doomed.Some?
        invariant doomed == FindNamed(rules, acl, body)
        invariant Removed(rules, acl, body) == Removed(old(rules), acl, body)
        decreases |rules|
      {
        var gone := rules[doomed.value];
        rules := rules[..doomed.value] + rules[doomed.value + 1..];
        PullUp(acl, gone.line);
        doomed := FindNamed(rules, acl, body);
      }
    }
  }

  // ---------------------------------------------------------------------
  // One addition, one removal
  // ---------------------------------------------------------------------

  /** No two rules of the list carry this name. */
  ghost predicate Single(rules: seq<DeviceRule>, acl: string, body: string) {
    forall i, j | 0 <= i < |rules| && 0 <= j < |rules| &&
                  Names(rules[i], acl, body) && Names(rules[j], acl, body) :: i == j
  }

  lemma RemovedIsOneDrop(rules: seq<DeviceRule>, acl: string, body: string)
    requires Single(rules, acl, body)
    ensures var f := FindNamed(rules, acl, body);
            Removed(rules, acl, body) == if f.Some? then DropAt(rules, f.value) else rules
    ensures !Present(Removed(rules, acl, body), acl, body)
  {
    var f := FindNamed(rules, acl, body);
    if f.Some? {
      var i := f.value;
      var dropped := DropAt(rules, i);
      forall k | 0 <= k < |dropped| ensures !Names(dropped[k], acl, body) {
        assert dropped[k].acl == rules[if k < i then k else k + 1].acl;
        assert dropped[k].body == rules[if k < i then k else k + 1].body;
        assert !Names(rules[if k < i then k else k + 1], acl, body);
      }
    }
  }

  /** What a removal leaves: every other rule in its place, one line up exactly when it was below the rule removed. */
  lemma RemovalClosesTheGap(rules: seq<DeviceRule>, acl: string, body: string, i: nat)
    requires Single(rules, acl, body) && i < |rules| && Names(rules[i], acl, body)
    ensures var left := Removed(rules, acl, body);
            && |left| == |rules| - 1
            && forall k | 0 <= k < |left| ::
                 var was := rules[if k < i then k else k + 1];
                 && left[k].acl == was.acl && left[k].body == was.body && left[k].hits == was.hits
                 && was.line - left[k].line == if was.acl == acl && rules[i].line < was.line then 1 else 0
  {
    RemovedIsOneDrop(rules, acl, body);
    forall k: nat | k < |rules| - 1
      ensures DropAt(rules, i)[k] == Raised(rules[if k < i then k else k + 1], rules[i].acl, rules[i].line)
    {
      DroppedAt(rules, i, k);
    }
    hide DropAt;
  }

  /** Rule k of what is left after dropping rule i. */
  lemma DroppedAt(rules: seq<DeviceRule>, i: nat, k: nat)
    requires i < |rules| && k < |rules| - 1
    ensures DropAt(rules, i)[k] == Raised(rules[if k < i then k else k + 1], rules[i].acl, rules[i].line)
  {
  }

  lemma AddedEndsWithIt(rules: seq<DeviceRule>, acl: string, line: Option<int>, body: string)
    requires !Present(rules, acl, body)
    ensures var added, n := Added(rules, acl, line, body), |rules|;
            && |added| == n + 1 && FindNamed(added, acl, body) == Some(n) && Single(added, acl, body)
            && added[n].acl == acl
            && (forall k | 0 <= k < n :: added[k] == if line.Some? then Lowered(rules[k], acl, line.value)
                else rules[k])
            && added[n].line == line.GetOr(MaxLine(rules, acl) + 10)
  {
    var added, n := Added(rules, acl, line, body), |rules|;
    forall k | 0 <= k < n ensures !Names(added[k], acl, body) {
      assert !Names(rules[k], acl, body);
    }
    assert Names(added[n], acl, body);
    assert Single(added, acl, body);
  }

  /** Removing what was just added restores every rule and every line number. */
  lemma RemoveUndoesAdd(rules: seq<DeviceRule>, acl: string, line: Option<int>, body: string)
    requires !Present(rules, acl, body)
    ensures Removed(Added(rules, acl, line, body), acl, body) == rules
  {
    hide Removed, Added, DropAt, FindNamed, Names, Single, MaxLine, Present;
    var added, n := Added(rules, acl, line, body), |rules|;
    AddedEndsWithIt(rules, acl, line, body);
    RemovedIsOneDrop(added, acl, body);
    forall k | 0 <= k < n ensures DropAt(added, n)[k] == rules[k] {
      DroppedAt(added, n, k);
      if line == None && rules[k].acl == acl {
        NoLineAboveMax(rules, acl, k);
      }
    }
    assert DropAt(added, n) == rules;
  }

  lemma NoLineAboveMax(rules: seq<DeviceRule>, acl: string, k: nat)
    requires k < |rules| && rules[k].acl == acl
    ensures rules[k].line <= MaxLine(rules, acl)
  {
    RuleIsListed(rules, acl, k);
    var listed := InAcl(rules, acl);
    var at :| 0 <= at < |listed| && listed[at] == rules[k];
    assert LinesOf(listed)[at] <= MaxLine(rules, acl);
  }

  lemma {:induction false} RuleIsListed(rules: seq<DeviceRule>, acl: string, k: nat)
    requires k < |rules| && rules[k].acl == acl
    ensures rules[k] in InAcl(rules, acl)
  {
    if k < |rules| - 1 {
      RuleIsListed(rules[..|rules| - 1], acl, k);
    }
  }

  // ---------------------------------------------------------------------
  // Removals commute
  // ---------------------------------------------------------------------

  lemma RaisesCommute(rule: DeviceRule, a: DeviceRule, b: DeviceRule)
    ensures var a', b' := Raised(a, b.acl, b.line), Raised(b, a.acl, a.line);
            Raised(Raised(rule, a.acl, a.line), b'.acl, b'.line) == Raised(Raised(rule, b.acl, b.line), a'.acl, a'.line)
  {
  }

  /** Closing two gaps gives the same lines whichever gap closes first. */
  lemma DropsCommute(rules: seq<DeviceRule>, i: nat, j: nat)
    requires i < j < |rules|
    ensures DropAt(DropAt(rules, i), j - 1) == DropAt(DropAt(rules, j), i)
  {
    hide DropAt, Raised;
    var left, right := DropAt(DropAt(rules, i), j - 1), DropAt(DropAt(rules, j), i);
    DroppedAt(rules, i, j - 1);
    DroppedAt(rules, j, i);
    forall k | 0 <= k < |left| ensures left[k] == right[k] {
      var o := if k < i then k else if k < j - 1 then k + 1 else k + 2;
      DroppedAt(DropAt(rules, i), j - 1, k);
      DroppedAt(rules, i, if k < j - 1 then k else k + 1);
      DroppedAt(DropAt(rules, j), i, k);
      DroppedAt(rules, j, if k < i then k else k + 1);
      RaisesCommute(rules[o], rules[i], rules[j]);
    }
  }

  lemma DropKeepsNames(rules: seq<DeviceRule>, i: nat, acl: string, body: string)
    requires i < |rules|
    ensures forall k | 0 <= k < i :: Names(DropAt(rules, i)[k], acl, body) == Names(rules[k], acl, body)
    ensures forall k | i < k < |rules| :: Names(DropAt(rules, i)[k - 1], acl, body) == Names(rules[k], acl, body)
    ensures Single(rules, acl, body) ==> Single(DropAt(rules, i), acl, body)
  {
    var dropped := DropAt(rules, i);
    forall k | 0 <= k < |dropped|
      ensures dropped[k].acl == rules[if k < i then k else k + 1].acl
      ensures dropped[k].body == rules[if k < i then k else k + 1].body
    {
    }
    forall a, b | Single(rules, acl, body) && 0 <= a < |dropped| && 0 <= b < |dropped| &&
                  Names(dropped[a], acl, body) && Names(dropped[b], acl, body)
      ensures a == b
    {
      assert Names(rules[if a < i then a else a + 1], acl, body);
      assert Names(rules[if b < i then b else b + 1], acl, body);
    }
  }

  lemma RemovalKeepsSingle(rules: seq<DeviceRule>, acl: string, body: string, acl': string, body': string)
    requires Single(rules, acl, body) && Single(rules, acl', body')
    ensures Single(Removed(rules, acl, body), acl', body')
    ensures !Present(rules, acl', body') ==> !Present(Removed(rules, acl, body), acl', body')
  {
    RemovedIsOneDrop(rules, acl, body);
    var f := FindNamed(rules, acl, body);
    if f.Some? {
      DropKeepsNames(rules, f.value, acl', body');
    }
  }

  predicate SameName(acl: string, body: string, acl': string, body': string) {
    acl == acl' && Lower(body) == Lower(body')
  }

  lemma {:induction false} SameNameSameRemoval(rules: seq<DeviceRule>, acl: string, body: string, body': string)
    requires Lower(body) == Lower(body')
    ensures FindNamed(rules, acl, body) == FindNamed(rules, acl, body')
    ensures Removed(rules, acl, body) == Removed(rules, acl, body')
    decreases |rules|
  {
    SameNameSameFind(rules, acl, body, body');
    var f := FindNamed(rules, acl, body);
    if f.Some? {
      SameNameSameRemoval(DropAt(rules, f.value), acl, body, body');
    }
  }

  lemma SameNameSameFind(rules: seq<DeviceRule>, acl: string, body: string, body': string)
    requires Lower(body) == Lower(body')
    ensures FindNamed(rules, acl, body) == FindNamed(rules, acl, body')
  {
  }

  /** The order of two removals does not matter to the rules or the lines left. */
  lemma RemovalsCommute(rules: seq<DeviceRule>, acl: string, body: string, acl': string, body': string)
    requires Single(rules, acl, body) && Single(rules, acl', body')
    ensures Removed(Removed(rules, acl, body), acl', body') == Removed(Removed(rules, acl', body'), acl, body)
  {
    if SameName(acl, body, acl', body') {
      SameNameSameRemoval(rules, acl, body, body');
      SameNameSameRemoval(Removed(rules, acl, body), acl, body, body');
    } else {
      var f, g := FindNamed(rules, acl, body), FindNamed(rules, acl', body');
      RemovedIsOneDrop(rules, acl, body);
      RemovedIsOneDrop(rules, acl', body');
      RemovalKeepsSingle(rules, acl, body, acl', body');
      RemovalKeepsSingle(rules, acl', body', acl, body);
      RemovedIsOneDrop(Removed(rules, acl, body), acl', body');
      RemovedIsOneDrop(Removed(rules, acl', body'), acl, body);
      if f.Some? && g.Some? {
        var i, j := f.value, g.value;
        assert i != j;
        FoundAfterDrop(rules, i, j, acl', body');
        FoundAfterDrop(rules, j, i, acl, body);
        if i < j {
          DropsCommute(rules, i, j);
        } else {
          DropsCommute(rules, j, i);
        }
      }
    }
  }

  lemma FoundAfterDrop(rules: seq<DeviceRule>, i: nat, j: nat, acl: string, body: string)
    requires i < |rules| && j < |rules| && i != j
    requires Single(rules, acl, body) && Names(rules[j], acl, body)
    ensures FindNamed(DropAt(rules, i), acl, body) == Some(if j < i then j else j - 1)
  {
    DropKeepsNames(rules, i, acl, body);
    var at := if j < i then j else j - 1;
    assert Names(DropAt(rules, i)[at], acl, body);
    assert Single(DropAt(rules, i), acl, body);
  }
}
