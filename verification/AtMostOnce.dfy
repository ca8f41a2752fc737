/**
 Retrying under one operation key, with the process allowed to die at any point
 (apps/api/app/execute/idempotent.py).
 */
module AtMostOnce {
  import opened Wrappers
  import opened AclPolicy
  import opened DevicePolicy
  import opened Rollback
  import opened Live
  import opened Execution
  import TerminalStates

  // ---------------------------------------------------------------------
  // Counting the copies of a rule on a device
  // ---------------------------------------------------------------------

  function IsCopy(text: string, parse: Parser, body: Body): nat {
    if SameRule(parse(text).GetOr(UNMODELLED), body) then 1 else 0
  }

  function Count(rules: seq<DeviceRule>, parse: Parser, body: Body): nat {
    if rules == [] then 0
    else Count(rules[..|rules| - 1], parse, body) + IsCopy(rules[|rules| - 1].body, parse, body)
  }

  function Copies(fleet: Fleet, device: string, parse: Parser, body: Body): nat {
    if device in fleet then Count(fleet[device], parse, body) else 0
  }

  lemma {:induction false} CountConcat(a: seq<DeviceRule>, b: seq<DeviceRule>, parse: Parser, body: Body)
    ensures Count(a + b, parse, body) == Count(a, parse, body) + Count(b, parse, body)
  {
    if b == [] {
      assert a + b == a;
    } else {
      var n := |b| - 1;
      assert (a + b)[..|a| + n] == a + b[..n];
      CountConcat(a, b[..n], parse, body);
    }
  }

  /** Line numbers do not enter the count. */
  lemma {:induction false} CountIgnoresLines(a: seq<DeviceRule>, b: seq<DeviceRule>, parse: Parser, body: Body)
    requires |a| == |b| && forall i | 0 <= i < |a| :: a[i].body == b[i].body
    ensures Count(a, parse, body) == Count(b, parse, body)
  {
    if a != [] {
      CountIgnoresLines(a[..|a| - 1], b[..|b| - 1], parse, body);
    }
  }

  lemma DropTakesOneAway(rules: seq<DeviceRule>, i: nat, parse: Parser, body: Body)
    requires i < |rules|
    ensures Count(DropAt(rules, i), parse, body) + IsCopy(rules[i].body, parse, body) == Count(rules, parse, body)
  {
    var before, here, after := rules[..i], [rules[i]], rules[i + 1..];
    CountIgnoresLines(DropAt(rules, i), before + after, parse, body);
    CountConcat(before, after, parse, body);
    hide DropAt, IsCopy;
    assert rules == before + (here + after);
    CountConcat(before, here + after, parse, body);
    CountConcat(here, after, parse, body);
    assert here[..0] == [];
    assert Count(here, parse, body) == IsCopy(rules[i].body, parse, body);
  }

  lemma {:induction false} RemovalNeverAdds(rules: seq<DeviceRule>, acl: string, text: string, parse: Parser,
                                            body: Body)
    ensures Count(Removed(rules, acl, text), parse, body) <= Count(rules, parse, body)
    decreases |rules|
  {
    hide DropAt, Count;
    var f := FindNamed(rules, acl, text);
    if f.Some? {
      DropTakesOneAway(rules, f.value, parse, body);
      RemovalNeverAdds(DropAt(rules, f.value), acl, text, parse, body);
    }
  }

  lemma StoringAddsOne(rules: seq<DeviceRule>, acl: string, line: Option<int>, text: string, parse: Parser, body: Body)
    ensures Count(Stored(rules, acl, line, text), parse, body) == Count(rules, parse, body) + IsCopy(text, parse, body)
  {
    var stored := Stored(rules, acl, line, text);
    var n := |rules|;
    assert stored[n].body == text;
    CountIgnoresLines(stored[..n], rules, parse, body);
  }

  lemma {:induction false} NoneHeldNoneCounted(rules: seq<DeviceRule>, parse: Parser, body: Body)
    requires forall i | 0 <= i < |rules| :: IsCopy(rules[i].body, parse, body) == 0
    ensures Count(rules, parse, body) == 0
  {
    if rules != [] {
      NoneHeldNoneCounted(rules[..|rules| - 1], parse, body);
    }
  }

  // ---------------------------------------------------------------------
  // One send, one attempt
  // ---------------------------------------------------------------------

  /** The device may obey, ignore or keep a second copy; it does not rewrite itself. */
  ghost predicate Tame(script: seq<Reaction>) {
    forall i | 0 <= i < |script| :: !script[i].effect.Become?
  }

  /** The command adds a line to an access list, at a line number a device accepts. */
  predicate IsAddition(command: Command) {
    command.Acl? && !command.removal && (command.line.Some? ==> command.line.value >= 0)
  }

  /** How many copies of the rule a command may add. */
  function Gain(command: Command, parse: Parser, body: Body): nat {
    if IsAddition(command) then IsCopy(command.body, parse, body) else 0
  }

  lemma SendGain(w: World, device: string, command: Command, parse: Parser, at: string, body: Body)
    requires Tame(w.net.script)
    ensures var w' := Send(w, device, command).0;
            && Tame(w'.net.script)
            && Copies(w'.net.fleet, at, parse, body) <=
                 Copies(w.net.fleet, at, parse, body) + (if at == device then Gain(command, parse, body) else 0)
  {
    if command.Acl? && at == device && at in w.net.fleet {
      var rules := w.net.fleet[at];
      RemovalNeverAdds(rules, command.acl, command.body, parse, body);
      StoringAddsOne(rules, command.acl, command.line, command.body, parse, body);
    }
    hide Count, Removed, Stored;
  }

  ghost predicate AtMost(fleet: Fleet, device: string, parse: Parser, body: Body, bound: nat) {
    Copies(fleet, device, parse, body) <= bound
  }

  /** Skipping what has landed keeps a bound of one: an addition is sent only when no copy is there. */
  lemma PushKeepsBound(cfg: Config, p: Progress, action: ChangeAction, at: string, body: Body, bound: nat)
    requires cfg.skipLanded && bound >= 1 && Tame(p.world.net.script) && p.status == Going
    requires ParseCommand(cfg.parse, action.command).Some?
    requires AtMost(p.world.net.fleet, at, cfg.parse, body, bound)
    ensures var q := PushedOne(cfg, p, action);
            Tame(q.world.net.script) && AtMost(q.world.net.fleet, at, cfg.parse, body, bound)
  {
    var command, q := Render(action.command, action.position), Looked(cfg, p, action);
    if !Landed(cfg, p.world.net.fleet, action) {
      SendGain(q.world, action.device, command, cfg.parse, at, body);
      if at == action.device && Gain(command, cfg.parse, body) == 1 {
        NoCopyUnlessLanded(cfg, p.world.net.fleet, action, body);
      }
    }
    hide Count, Landed, Send, IsCopy;
  }

  lemma NoCopyUnlessLanded(cfg: Config, fleet: Fleet, action: ChangeAction, body: Body)
    requires !Landed(cfg, fleet, action) && ParseCommand(cfg.parse, action.command).Some?
    requires SameRule(ParseCommand(cfg.parse, action.command).value, body)
    ensures Copies(fleet, action.device, cfg.parse, body) == 0
  {
    var expected := ParseCommand(cfg.parse, action.command).value;
    if action.device in fleet {
      var rules, policy := fleet[action.device], ReadDevice(fleet, action.device, cfg.parse);
      forall i | 0 <= i < |rules| ensures IsCopy(rules[i].body, cfg.parse, body) == 0 {
        assert !SameRule(policy[i].body, expected);
        SameRuleIsEquivalence(policy[i].body, body, expected);
        SameRuleIsEquivalence(expected, body, expected);
      }
      NoneHeldNoneCounted(rules, cfg.parse, body);
    }
  }

  lemma {:induction false} PushingKeepsBound(cfg: Config, w: World, actions: seq<ChangeAction>, n: nat, at: string,
                                             body: Body, bound: nat)
    requires n <= |actions| && cfg.skipLanded && bound >= 1 && Tame(w.net.script)
    requires forall i | 0 <= i < |actions| :: ParseCommand(cfg.parse, actions[i].command).Some?
    requires AtMost(w.net.fleet, at, cfg.parse, body, bound)
    ensures var p := Pushed(cfg, w, actions, n);
            Tame(p.world.net.script) && AtMost(p.world.net.fleet, at, cfg.parse, body, bound)
  {
    hide PushedOne, AtMost, ParseCommand;
    if n > 0 {
      PushingKeepsBound(cfg, w, actions, n - 1, at, body, bound);
      var p := Pushed(cfg, w, actions, n - 1);
      if p.status == Going {
        PushKeepsBound(cfg, p, actions[n - 1], at, body, bound);
      }
    }
  }

  /** No reversal on this device puts a copy of the rule there. */
  ghost predicate NeverReadded(actions: seq<ChangeAction>, parse: Parser, at: string, body: Body) {
    forall i | 0 <= i < |actions| && actions[i].device == at ::
      Gain(Render(actions[i].rollback, actions[i].position), parse, body) == 0
  }

  /** A reversal that adds the rule back adds a copy on a device that keeps duplicates. */
  lemma ReaddingAddsACopy(p: Progress, action: ChangeAction, parse: Parser, body: Body)
    requires Gain(Render(action.rollback, action.position), parse, body) == 1 && action.device in p.world.net.fleet
    requires p.world.net.script != [] && p.world.net.script[0].connects && p.world.net.script[0].effect == Duplicate
    ensures Copies(PulledOne(p, action).world.net.fleet, action.device, parse, body)
              == Copies(p.world.net.fleet, action.device, parse, body) + 1
  {
    hide Count, Stored, IsCopy, Removed, Added;
    var command := Render(action.rollback, action.position);
    StoringAddsOne(p.world.net.fleet[action.device], command.acl, command.line, command.body, parse, body);
  }

  lemma PullKeepsBound(p: Progress, action: ChangeAction, parse: Parser, at: string, body: Body, bound: nat)
    requires Tame(p.world.net.script) && AtMost(p.world.net.fleet, at, parse, body, bound)
    requires action.device == at ==> Gain(Render(action.rollback, action.position), parse, body) == 0
    ensures var q := PulledOne(p, action);
            Tame(q.world.net.script) && AtMost(q.world.net.fleet, at, parse, body, bound)
  {
    SendGain(p.world, action.device, Render(action.rollback, action.position), parse, at, body);
    hide Send, Count, IsCopy;
  }

  lemma {:induction false} PullingKeepsBound(start: Progress, actions: seq<ChangeAction>, n: nat, parse: Parser,
                                             at: string, body: Body, bound: nat)
    requires n <= |actions| && Tame(start.world.net.script) && NeverReadded(actions, parse, at, body)
    requires AtMost(start.world.net.fleet, at, parse, body, bound)
    ensures var p := Pulled(start, actions, n);
            Tame(p.world.net.script) && AtMost(p.world.net.fleet, at, parse, body, bound)
  {
    hide PulledOne, AtMost, Gain;
    if n > 0 {
      PullingKeepsBound(start, actions, n - 1, parse, at, body, bound);
      var p := Pulled(start, actions, n - 1);
      if p.status == Going {
        PullKeepsBound(p, actions[|actions| - n], parse, at, body, bound);
      }
    }
  }

  lemma RevertKeepsBound(cfg: Config, w: World, steps: seq<Step>, verification: seq<LiveFinding>, cause: Cause,
                         actions: seq<ChangeAction>, flows: seq<Flow>, at: string, body: Body, bound: nat)
    requires Tame(w.net.script) && NeverReadded(actions, cfg.parse, at, body)
    requires AtMost(w.net.fleet, at, cfg.parse, body, bound)
    ensures AtMost(Reverted(cfg, w, steps, verification, cause, actions, flows).world.net.fleet, at, cfg.parse, body,
                   bound)
  {
    hide Pulled, AtMost, Findings, Clean, NeverReadded, ReadTimes;
    var begin := Progress(w, steps, [RollingBack(cause)], Going);
    TerminalStates.ReadingOnlyReads(Pulled(begin, actions, |actions|).world, |actions|);
    PullingKeepsBound(Progress(w, steps, [RollingBack(cause)], Going), actions, |actions|, cfg.parse, at, body, bound);
  }

  lemma AttemptKeepsBound(cfg: Config, w: World, actions: seq<ChangeAction>, flows: seq<Flow>, at: string, body: Body,
                          bound: nat)
    requires cfg.skipLanded && bound >= 1 && Tame(w.net.script) && NeverReadded(actions, cfg.parse, at, body)
    requires AtMost(w.net.fleet, at, cfg.parse, body, bound)
    ensures AtMost(AppliedTo(cfg, w, actions, flows).world.net.fleet, at, cfg.parse, body, bound)
  {
    GuardIsExact(actions, flows, cfg.allowed, cfg.parse);
    if GuardOk(actions, flows, cfg.allowed, cfg.parse) {
      hide Pushed, Reverted, Findings, Clean, Reasons, NeverReadded, ReadTimes;
      var start := w.(sessions := []);
      PushingKeepsBound(cfg, start, actions, |actions|, at, body, bound);
      var p := Pushed(cfg, start, actions, |actions|);
      TerminalStates.ReadingOnlyReads(p.world, |actions|);
      var read := ReadTimes(p.world, |actions|).0;
      var findings := Findings(read.net.fleet, actions, flows, cfg.parse, |actions|, true);
      RevertKeepsBound(cfg, p.world, p.steps, [], SendingFailed, actions, flows, at, body, bound);
      RevertKeepsBound(cfg, read, p.steps, findings, VerificationFailed, actions, flows, at, body, bound);
    }
  }

  // ---------------------------------------------------------------------
  // Runs of calls under one key
  // ---------------------------------------------------------------------

  /** One call: its configuration and change, what the devices do, and whether the process lives to store the result. */
  datatype Call = Call(cfg: Config, actions: seq<ChangeAction>, flows: seq<Flow>,
                       script: seq<Reaction>, readings: seq<Reading>, survives: bool)

  datatype Run = Run(world: World, store: Store, results: seq<Ending>)

  /** Each call finds the devices as they were left, and holds no session. */
  function Found(run: Run, call: Call): World {
    World(run.world.net.(script := call.script, readings := call.readings), [])
  }

  function Answered(run: Run, key: string, call: Call): (Outcome, Store) {
    AppliedOnce(call.cfg, Found(run, call), run.store, key, call.actions, call.flows, call.survives)
  }

  function Called(start: Run, key: string, calls: seq<Call>, n: nat): Run
    requires n <= |calls|
  {
    if n == 0 then start
    else
      var run := Called(start, key, calls, n - 1);
      var (o, store) := Answered(run, key, calls[n - 1]);
      Run(o.world, store, run.results + [o.ending])
  }

  ghost predicate BoundKept(start: Run, key: string, calls: seq<Call>, n: nat, parse: Parser, device: string,
                            body: Body)
    requires n <= |calls|
  {
    var before := Copies(start.world.net.fleet, device, parse, body);
    Copies(Called(start, key, calls, n).world.net.fleet, device, parse, body) <= if before > 1 then before else 1
  }

  /** The call skips what has landed, on devices that do not rewrite themselves, and readds nothing. */
  ghost predicate Careful(call: Call, parse: Parser, device: string, body: Body) {
    && call.cfg.skipLanded && call.cfg.parse == parse && Tame(call.script)
    && NeverReadded(call.actions, parse, device, body)
  }

  /**
   However often a change is retried, whatever changes are tried under the key, wherever
   each call dies, and even on a device that keeps duplicates, no rule ever has more than
   one copy unless it started with more.
   */
  lemma {:induction false} AtMostOneCopy(start: Run, key: string, calls: seq<Call>, n: nat, parse: Parser,
                                         device: string, body: Body)
    requires n <= |calls| && forall i | 0 <= i < |calls| :: Careful(calls[i], parse, device, body)
    ensures BoundKept(start, key, calls, n, parse, device, body)
  {
    hide AppliedTo, Tame, NeverReadded;
    if n > 0 {
      AtMostOneCopy(start, key, calls, n - 1, parse, device, body);
      var run, call := Called(start, key, calls, n - 1), calls[n - 1];
      var before := Copies(start.world.net.fleet, device, parse, body);
      assert Careful(call, parse, device, body);
      AttemptKeepsBound(call.cfg, Found(run, call), call.actions, call.flows, device, body, if before > 1 then before
                        else 1);
    }
  }

  // ---------------------------------------------------------------------
  // A reversal that adds a rule back breaks the bound
  // ---------------------------------------------------------------------

  function Silent(effect: Effect, raises: bool): Reaction {
    Reaction(true, effect, raises, "")
  }

  /** The first send fails; the reversal of action i is stored twice and every other one is ignored. */
  function Spiteful(first: Effect, count: nat, i: nat): seq<Reaction> {
    [Silent(first, true)] + seq(count, k => Silent(if k == count - 1 - i then Duplicate else Ignore, false))
  }

  lemma SpitefulScript(first: Effect, count: nat, i: nat)
    requires !first.Become?
    ensures var script := Spiteful(first, count, i);
            script[0] == Silent(first, true) && script[1..] == Spiteful(Ignore, count, i)[1..] && Tame(script)
  {
    var script := Spiteful(first, count, i);
    assert forall k | 0 < k < |script| ::
        script[k] == Silent(if k - 1 == count - 1 - i then Duplicate else Ignore, false);
  }

  /** Once a send has failed, the later actions are not sent. */
  lemma {:induction false} StoppedStays(cfg: Config, w: World, actions: seq<ChangeAction>, n: nat)
    requires 1 <= n <= |actions| && Pushed(cfg, w, actions, 1).status == Stopped
    ensures Pushed(cfg, w, actions, n) == Pushed(cfg, w, actions, 1)
  {
    if n > 1 {
      StoppedStays(cfg, w, actions, n - 1);
    }
  }

  lemma OneReversal(p: Progress, action: ChangeAction, effect: Effect)
    requires action.rollback != Blank && p.status == Going && (effect == Ignore || effect == Duplicate)
    requires p.world.net.script != [] && p.world.net.script[0] == Silent(effect, false)
    ensures var q := PulledOne(p, action);
            && q.status == Going
            && q.world.net.script == p.world.net.script[1..]
            && (effect == Ignore ==> q.world.net.fleet == p.world.net.fleet)
  {
    hide Obeyed, Render;
  }

  lemma {:induction false} SpitefulReversal(start: Progress, actions: seq<ChangeAction>, i: nat, n: nat, parse: Parser,
                                            body: Body)
    requires n <= |actions| && i < |actions| && start.status == Going
    requires start.world.net.script == Spiteful(Ignore, |actions|, i)[1..]
    requires forall k | 0 <= k < |actions| :: actions[k].rollback != Blank
    requires actions[i].device in start.world.net.fleet
    requires Gain(Render(actions[i].rollback, actions[i].position), parse, body) == 1
    ensures var p, at := Pulled(start, actions, n), actions[i].device;
            && p.status == Going
            && p.world.net.script == start.world.net.script[n..]
            && (n < |actions| - i ==> p.world.net.fleet == start.world.net.fleet)
            && Copies(p.world.net.fleet, at, parse, body)
                 == Copies(start.world.net.fleet, at, parse, body) + (if n < |actions| - i then 0 else 1)
  {
    hide Count, IsCopy, PulledOne, Gain;
    if n > 0 {
      SpitefulReversal(start, actions, i, n - 1, parse, body);
      var p, action := Pulled(start, actions, n - 1), actions[|actions| - n];
      var effect := if |actions| - n == i then Duplicate else Ignore;
      assert p.world.net.script[0] == start.world.net.script[n - 1] == Silent(effect, false);
      OneReversal(p, action, effect);
      assert start.world.net.script[n - 1..][1..] == start.world.net.script[n..];
      if |actions| - n == i {
        ReaddingAddsACopy(p, action, parse, body);
      }
    }
  }

  /** The first send fails with one copy of the rule on the device, put there or found there. */
  lemma FirstSendFails(cfg: Config, actions: seq<ChangeAction>, i: nat, body: Body) returns (w: World)
    requires cfg.skipLanded && i < |actions|
    requires ParseCommand(cfg.parse, actions[0].command).Some?
    requires IsAddition(Render(actions[0].command, actions[0].position))
    requires Gain(Render(actions[i].rollback, actions[i].position), cfg.parse, body) == 1
    ensures w.sessions == [] && w.net.readings == [] && actions[i].device in w.net.fleet && Tame(w.net.script)
    ensures Copies(w.net.fleet, actions[i].device, cfg.parse, body) <= 1
    ensures var p := Pushed(cfg, w, actions, 1);
            && p.status == Stopped
            && p.world.net.script == Spiteful(Ignore, |actions|, i)[1..]
            && actions[i].device in p.world.net.fleet
            && Copies(p.world.net.fleet, actions[i].device, cfg.parse, body) == 1
  {
    var first, at := actions[0], actions[i].device;
    var command, rollback := Render(first.command, first.position), Render(actions[i].rollback, actions[i].position);
    var expected := ParseCommand(cfg.parse, first.command).value;
    var own := first.device == at && SameRule(expected, body);
    var there := [DeviceRule("", 1, rollback.body, 0)];
    var effect := if own then Obey else Ignore;
    w := World(Network(map[at := if own then [] else there], [], [], [], Spiteful(effect, |actions|, i), []), []);
    assert Pushed(cfg, w, actions, 0) == Progress(w, [], [], Going);
    assert there[..0] == [];
    assert Count(there, cfg.parse, body) == 1;
    SpitefulScript(effect, |actions|, i);
    hide Spiteful, Tame, IsCopy, Removed;
    assert !Landed(cfg, w.net.fleet, first) by {
      var policy := ReadDevice(w.net.fleet, first.device, cfg.parse);
      if k :| 0 <= k < |policy| && SameRule(policy[k].body, expected) {
        SameRuleIsEquivalence(policy[k].body, expected, body);
        SameRuleIsEquivalence(expected, policy[k].body, body);
      }
    }
    if own {
      assert FindNamed([], command.acl, command.body) == None;
      StoringAddsOne([], command.acl, command.line, command.body, cfg.parse, body);
    }
  }

  /** The same change, over and over, on devices that do not rewrite themselves. */
  ghost predicate Repeats(calls: seq<Call>, cfg: Config, actions: seq<ChangeAction>, flows: seq<Flow>) {
    forall k | 0 <= k < |calls| ::
      calls[k].cfg == cfg && calls[k].actions == actions && calls[k].flows == flows && Tame(calls[k].script)
  }

  /** One call over a spiteful device: the failed send is reversed and the rule has a second copy. */
  lemma ReaddingBreaksTheBound(cfg: Config, key: string, actions: seq<ChangeAction>, flows: seq<Flow>, i: nat,
                               body: Body)
    returns (start: Run, calls: seq<Call>)
    requires cfg.skipLanded && cfg.autoRollback && GuardOk(actions, flows, cfg.allowed, cfg.parse) && i < |actions|
    requires IsAddition(Render(actions[0].command, actions[0].position))
    requires Gain(Render(actions[i].rollback, actions[i].position), cfg.parse, body) == 1
    ensures |calls| == 1 && Repeats(calls, cfg, actions, flows)
    ensures !BoundKept(start, key, calls, 1, cfg.parse, actions[i].device, body)
  {
    var w := FirstSendFails(cfg, actions, i, body);
    start, calls := Run(w, map[], []), [Call(cfg, actions, flows, w.net.script, [], true)];
    StoppedStays(cfg, w, actions, |actions|);
    var p := Pushed(cfg, w, actions, |actions|);
    var begin := Progress(p.world, p.steps, [RollingBack(SendingFailed)], Going);
    SpitefulReversal(begin, actions, i, |actions|, cfg.parse, body);
    StoppedChangeIsReversed(cfg, w, actions, flows);
    hide Count, Pushed, Pulled, Gain, IsAddition, GuardOk, Spiteful, AppliedTo;
    assert Found(start, calls[0]) == w;
    assert Called(start, key, calls, 0) == start;
  }

  lemma StoppedChangeIsReversed(cfg: Config, w: World, actions: seq<ChangeAction>, flows: seq<Flow>)
    requires cfg.autoRollback && GuardOk(actions, flows, cfg.allowed, cfg.parse) && w.sessions == []
    requires Pushed(cfg, w, actions, |actions|).status == Stopped
    ensures var p := Pushed(cfg, w, actions, |actions|);
            var begin := Progress(p.world, p.steps, [RollingBack(SendingFailed)], Going);
            AppliedTo(cfg, w, actions, flows).world.net.fleet == Pulled(begin, actions, |actions|).world.net.fleet
  {
    var p := Pushed(cfg, w, actions, |actions|);
    var begin := Progress(p.world, p.steps, [RollingBack(SendingFailed)], Going);
    GuardIsExact(actions, flows, cfg.allowed, cfg.parse);
    hide Pushed, Pulled, Findings, Clean, Reasons, ReadTimes, GuardOk;
    TerminalStates.ReadingOnlyReads(Pulled(begin, actions, |actions|).world, |actions|);
    assert w.(sessions := []) == w;
  }

  /**
   For additions that pass the guard and are reversed automatically, the bound holds
   over every run exactly when no reversal on the device adds the rule back.
   */
  lemma AtMostOneCopyExactlyWhen(cfg: Config, key: string, actions: seq<ChangeAction>, flows: seq<Flow>,
                                 device: string, body: Body)
    requires cfg.skipLanded && cfg.autoRollback && GuardOk(actions, flows, cfg.allowed, cfg.parse)
    requires forall k | 0 <= k < |actions| :: IsAddition(Render(actions[k].command, actions[k].position))
    ensures (forall start: Run, calls: seq<Call>, n: nat | n <= |calls| && Repeats(calls, cfg, actions, flows) ::
               BoundKept(start, key, calls, n, cfg.parse, device, body)) <==>
              NeverReadded(actions, cfg.parse, device, body)
  {
    hide BoundKept, Gain, IsAddition, Render, Tame, GuardOk;
    if NeverReadded(actions, cfg.parse, device, body) {
      forall start: Run, calls: seq<Call>, n: nat | n <= |calls| && Repeats(calls, cfg, actions, flows)
        ensures BoundKept(start, key, calls, n, cfg.parse, device, body)
      {
        AtMostOneCopy(start, key, calls, n, cfg.parse, device, body);
      }
    } else {
      var i :| 0 <= i < |actions| && actions[i].device == device &&
               Gain(Render(actions[i].rollback, actions[i].position), cfg.parse, body) != 0;
      GainIsAtMostOne(Render(actions[i].rollback, actions[i].position), cfg.parse, body);
      var start, calls := ReaddingBreaksTheBound(cfg, key, actions, flows, i, body);
    }
  }

  /** Such a reversal passes the guard: a permit whose rollback is the permit itself. */
  lemma AReversalCanDouble(cfg: Config) returns (start: Run, calls: seq<Call>)
    requires cfg.allowed == {"fw"} && cfg.autoRollback && cfg.skipLanded && cfg.parse("permit") == Some(EVERYONE)
    ensures var again := Acl(false, "A", None, "permit");
            var actions, flows := [ChangeAction("fw", again, again, None, true, true)], [REACHABLE];
            && GuardOk(actions, flows, cfg.allowed, cfg.parse)
            && |calls| == 1 && Repeats(calls, cfg, actions, flows)
            && !BoundKept(start, "key", calls, 1, cfg.parse, "fw", EVERYONE)
  {
    var again := Acl(false, "A", None, "permit");
    var actions, flows := [ChangeAction("fw", again, again, None, true, true)], [REACHABLE];
    start, calls := ReaddingBreaksTheBound(cfg, "key", actions, flows, 0, EVERYONE);
  }

  lemma GainIsAtMostOne(command: Command, parse: Parser, body: Body)
    ensures Gain(command, parse, body) <= 1
  {
  }

  /** A result survives being stored and read back field by field. */
  lemma {:induction false} StepsRoundTrip(steps: seq<Step>)
    ensures ReplayedSteps(StepsAsDict(steps)) == steps
  {
    if steps != [] {
      StepsRoundTrip(steps[1..]);
    }
  }

  lemma StoredResultRoundTrips(r: ExecutionResult)
    ensures Replayed(AsDict(r)) == r
  {
    StepsRoundTrip(r.steps);
  }

  lemma {:induction false} ResultsGrow(start: Run, key: string, calls: seq<Call>, n: nat)
    requires n <= |calls| && start.results == []
    ensures |Called(start, key, calls, n).results| == n
    ensures n > 0 ==> Called(start, key, calls, n).results[..n - 1] == Called(start, key, calls, n - 1).results
  {
    hide Answered;
    if n > 0 {
      ResultsGrow(start, key, calls, n - 1);
    }
  }

  // ---------------------------------------------------------------------
  // What is stored, and what is replayed
  // ---------------------------------------------------------------------

  /** A new key is learnt exactly from a returned result of a change that passed the guard; the empty key never is,
      and stands for no result. */
  lemma StoredExactlyWhen(cfg: Config, w: World, store: Store, key: string, actions: seq<ChangeAction>,
                          flows: seq<Flow>,
                          survives: bool)
    requires key == "" || key !in store
    ensures var (o, store') := AppliedOnce(cfg, w, store, key, actions, flows, survives);
            && (key == "" ==> store' == store)
            && (key != "" ==>
                  && (key in store' <==> o.ending.Returned? && GuardOk(actions, flows, cfg.allowed, cfg.parse))
                  && (key in store' ==> Replayed(store'[key]) == o.ending.result)
                  && store' - {key} == store)
            && (o.ending == Died || o == AppliedTo(cfg, w, actions, flows))
            && (o.ending == Died <==> !survives || AppliedTo(cfg, w, actions, flows).ending == Died)
            && o.world == AppliedTo(cfg, w, actions, flows).world
  {
    TerminalStates.TerminalStatesTellTheTruth(cfg, w, actions, flows);
    var o := AppliedTo(cfg, w, actions, flows);
    if o.ending.Returned? {
      StoredResultRoundTrips(o.ending.result);
    }
    hide AppliedTo, Replayed, AsDict;
  }

  /** A refusal is not remembered: store and devices stay as they are, and the next call is judged by its own guard. */
  lemma RefusalIsForgotten(start: Run, key: string, calls: seq<Call>, n: nat)
    requires n < |calls| && (key == "" || key !in Called(start, key, calls, n).store)
    requires var call := calls[n]; !GuardOk(call.actions, call.flows, call.cfg.allowed, call.cfg.parse)
    ensures var before, after := Called(start, key, calls, n), Called(start, key, calls, n + 1);
            && after.store == before.store
            && after.world.net.fleet == before.world.net.fleet && after.world.net.sent == before.world.net.sent
    ensures n + 1 < |calls| ==>
              var next, o := calls[n + 1], Answered(Called(start, key, calls, n + 1), key, calls[n + 1]).0;
              (o.ending.Returned? && o.ending.result.state == Refused) <==>
                next.survives && !GuardOk(next.actions, next.flows, next.cfg.allowed, next.cfg.parse)
  {
    var run, call := Called(start, key, calls, n), calls[n];
    StoredExactlyWhen(call.cfg, Found(run, call), run.store, key, call.actions, call.flows, call.survives);
    TerminalStates.TerminalStatesTellTheTruth(call.cfg, Found(run, call), call.actions, call.flows);
    if n + 1 < |calls| {
      var later, next := Called(start, key, calls, n + 1), calls[n + 1];
      assert later.store == run.store;
      StoredExactlyWhen(next.cfg, Found(later, next), later.store, key, next.actions, next.flows, next.survives);
      TerminalStates.TerminalStatesTellTheTruth(next.cfg, Found(later, next), next.actions, next.flows);
    }
    hide AppliedTo, AppliedOnce, GuardOk;
  }

  /**
   Once a call has returned a result other than REFUSED, every later call under the key
   returns that very result, sends nothing and leaves the devices alone, whatever change
   it is given.
   */
  lemma {:induction false} FirstResultIsFinal(start: Run, key: string, calls: seq<Call>, i: nat, j: nat)
    requires key != "" && start.results == [] && i < j <= |calls|
    requires var run := Called(start, key, calls, i + 1);
             |run.results| == i + 1 && run.results[i].Returned? && run.results[i].result.state != Refused
    ensures var first, later := Called(start, key, calls, i + 1), Called(start, key, calls, j);
            && |later.results| == j && later.results[j - 1] == first.results[i]
            && later.world.net.sent == first.world.net.sent
            && later.world.net.fleet == first.world.net.fleet
            && key in later.store && Replayed(later.store[key]) == first.results[i].result
    decreases j
  {
    hide AppliedTo, Replayed;
    ResultsGrow(start, key, calls, j);
    var run := Called(start, key, calls, j - 1);
    if j == i + 1 {
      var call := calls[i];
      ResultIsStored(call.cfg, Found(run, call), run.store, key, call.actions, call.flows, call.survives);
      ResultsGrow(start, key, calls, i);
    } else {
      FirstResultIsFinal(start, key, calls, i, j - 1);
    }
  }

  /** A result other than REFUSED that reached the caller is in the store. */
  lemma ResultIsStored(cfg: Config, w: World, store: Store, key: string, actions: seq<ChangeAction>, flows: seq<Flow>,
                       survives: bool)
    requires key != ""
    ensures var (o, store') := AppliedOnce(cfg, w, store, key, actions, flows, survives);
            o.ending.Returned? && o.ending.result.state != Refused ==>
              key in store' && Replayed(store'[key]) == o.ending.result
  {
    hide AppliedTo;
    var o := AppliedTo(cfg, w, actions, flows);
    if o.ending.Returned? {
      StoredResultRoundTrips(o.ending.result);
    }
  }
}
