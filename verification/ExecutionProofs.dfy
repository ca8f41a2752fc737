/** What each terminal state is allowed to claim, for every behaviour of the devices. */
module TerminalStates {
  import opened AclPolicy
  import opened Live
  import opened Execution

  /** Reads consume readings and touch nothing else. */
  lemma {:induction false} ReadingOnlyReads(w: World, n: nat)
    ensures var w' := ReadTimes(w, n).0;
            w' == World(w.net.(readings := w'.net.readings), w.sessions)
  {
    if n > 0 {
      ReadingOnlyReads(w, n - 1);
    }
  }

  /**
   REFUSED exactly when a precondition fails, and then nothing happened at all.
   APPLIED only with every rule on its device and all evidence permitted there,
   ROLLED_BACK only with none of the rules there and none of the evidence permitted.
   */
  lemma TerminalStatesTellTheTruth(cfg: Config, w: World, actions: seq<ChangeAction>, flows: seq<Flow>)
    ensures var o := AppliedTo(cfg, w, actions, flows);
            && (!GuardOk(actions, flows, cfg.allowed, cfg.parse) ==>
                o.ending.Returned? && o.ending.result.state == Refused)
            && (o.ending.Returned? ==>
                  var state, fleet := o.ending.result.state, o.world.net.fleet;
                  && (state == Refused ==> !GuardOk(actions, flows, cfg.allowed, cfg.parse) && o.world == w)
                  && (state == Applied ==> InForce(fleet, actions, flows, cfg.parse))
                  && (state == RolledBack ==> Withdrawn(fleet, actions, flows, cfg.parse)))
  {
    hide Findings, Clean, Reasons, Pushed, Pulled, InForce, Withdrawn, GuardOk, ReadTimes;
    var o := AppliedTo(cfg, w, actions, flows);
    GuardIsExact(actions, flows, cfg.allowed, cfg.parse);
    ReadBackIsExact(o.world.net.fleet, actions, flows, cfg.parse);
  }

  /** APPLIED is not withheld either: it is reported whenever every send and read went through
      and the rules are in force. */
  lemma AppliedExactlyWhen(cfg: Config, w: World, actions: seq<ChangeAction>, flows: seq<Flow>)
    ensures var o := AppliedTo(cfg, w, actions, flows);
            var p := Pushed(cfg, w.(sessions := []), actions, |actions|);
            (o.ending.Returned? && o.ending.result.state == Applied) <==>
              && GuardOk(actions, flows, cfg.allowed, cfg.parse)
              && p.status == Going
              && ReadTimes(p.world, |actions|).1 == Shows
              && InForce(p.world.net.fleet, actions, flows, cfg.parse)
  {
    hide Findings, Clean, Reasons, Pushed, Pulled, InForce, GuardOk, ReadTimes;
    var p := Pushed(cfg, w.(sessions := []), actions, |actions|);
    GuardIsExact(actions, flows, cfg.allowed, cfg.parse);
    ReadingOnlyReads(p.world, |actions|);
    ReadBackIsExact(p.world.net.fleet, actions, flows, cfg.parse);
  }

  /** Some rule of the policy acts as this one on every flow. */
  ghost predicate ActsAlike(policy: seq<AclRule>, body: Body) {
    exists i | 0 <= i < |policy| :: policy[i].body.action == body.action && forall flow ::
      Matches(policy[i].body, flow) <==> Matches(body, flow)
  }

  /** After APPLIED, every proposed rule is on its device in a form that acts alike on every flow. */
  lemma AppliedRulesActAlike(cfg: Config, w: World, actions: seq<ChangeAction>, flows: seq<Flow>, n: nat)
    requires n < |actions|
    ensures var o := AppliedTo(cfg, w, actions, flows);
            var expected := ParseCommand(cfg.parse, actions[n].command);
            o.ending.Returned? && o.ending.result.state == Applied ==>
              expected.Some? && ActsAlike(ReadDevice(o.world.net.fleet, actions[n].device, cfg.parse), expected.value)
  {
    hide AppliedTo, ReadDevice, EvaluateFlow, Stands;
    TerminalStatesTellTheTruth(cfg, w, actions, flows);
    var o := AppliedTo(cfg, w, actions, flows);
    if o.ending.Returned? && o.ending.result.state == Applied {
      assert Executable(actions[n], cfg.allowed, cfg.parse);
      StandingActsAlike(ReadDevice(o.world.net.fleet, actions[n].device, cfg.parse),
                        ParseCommand(cfg.parse, actions[n].command).value);
    }
  }

  lemma StandingActsAlike(policy: seq<AclRule>, body: Body)
    requires Stands(policy, body)
    ensures ActsAlike(policy, body)
  {
    var i :| 0 <= i < |policy| && SameMeaning(policy[i].body, body);
    SameRuleExactlyWhen(policy[i].body, body);
    SameRuleMatchesAlike(policy[i].body, body);
    hide SameMeaning, SameRule, Matches;
  }

  // ---------------------------------------------------------------------
  // Exceptions and the readings that cause them
  // ---------------------------------------------------------------------

  /** The first k readings were taken, and all but the last of them show a policy. */
  ghost predicate ReadUpTo(before: seq<Reading>, after: seq<Reading>, k: nat) {
    k <= |before| && after == before[k..] && forall j | 0 <= j < k - 1 :: before[j] == Shows
  }

  /** The last of the first k readings; none counts as showing. */
  ghost function LastOf(before: seq<Reading>, k: nat): Reading
    requires k <= |before|
  {
    if k == 0 then Shows else before[k - 1]
  }

  lemma ReadingOn(a: seq<Reading>, b: seq<Reading>, c: seq<Reading>, k: nat, m: nat)
    requires ReadUpTo(a, b, k) && LastOf(a, k) == Shows && ReadUpTo(b, c, m)
    ensures ReadUpTo(a, c, k + m) && LastOf(a, k + m) == LastOf(b, m)
  {
    assert a[k..][m..] == a[k + m..];
    forall j | 0 <= j < k + m - 1 ensures a[j] == Shows {
      if j >= k {
        assert b[j - k] == a[j];
      }
    }
  }

  lemma {:induction false} ReadTimesReads(w: World, n: nat) returns (k: nat)
    ensures var (w', reading) := ReadTimes(w, n);
            ReadUpTo(w.net.readings, w'.net.readings, k) && LastOf(w.net.readings, k) == reading
  {
    if n == 0 {
      k := 0;
    } else {
      var before := ReadTimes(w, n - 1).0;
      k := ReadTimesReads(w, n - 1);
      if ReadTimes(w, n - 1).1 == Shows {
        var m := if before.net.readings == [] then 0 else 1;
        ReadingOn(w.net.readings, before.net.readings, ReadOnce(before).0.net.readings, k, m);
        k := k + m;
      }
    }
  }

  /** The readings taken so far, and what the last of them makes of the status. */
  ghost predicate Tracks(before: seq<Reading>, p: Progress, k: nat) {
    && ReadUpTo(before, p.world.net.readings, k)
    && (p.status == Escaping <==> LastOf(before, k) == Fails)
    && (p.status == Going || p.status == Stopped ==> LastOf(before, k) == Shows)
    && (p.status == Dying ==> LastOf(before, k) == Dies || p.world.net.script == [])
  }

  lemma PushOneTracks(cfg: Config, p: Progress, action: ChangeAction) returns (m: nat)
    requires p.status == Going
    ensures Tracks(p.world.net.readings, PushedOne(cfg, p, action), m)
  {
    hide Landed, After;
    var q := Looked(cfg, p, action);
    m := if q.world.net.readings == p.world.net.readings then 0 else 1;
  }

  lemma {:induction false} PushTracks(cfg: Config, w: World, actions: seq<ChangeAction>, n: nat) returns (k: nat)
    requires n <= |actions|
    ensures Tracks(w.net.readings, Pushed(cfg, w, actions, n), k)
  {
    hide PushedOne;
    if n == 0 {
      k := 0;
    } else {
      var p := Pushed(cfg, w, actions, n - 1);
      k := PushTracks(cfg, w, actions, n - 1);
      if p.status == Going {
        var m := PushOneTracks(cfg, p, actions[n - 1]);
        ReadingOn(w.net.readings, p.world.net.readings, PushedOne(cfg, p, actions[n - 1]).world.net.readings, k, m);
        k := k + m;
      }
    }
  }

  /** The reversal reads nothing. */
  lemma {:induction false} PullReadsNothing(start: Progress, actions: seq<ChangeAction>, n: nat)
    requires n <= |actions| && start.status != Escaping
    ensures var p := Pulled(start, actions, n);
            && p.world.net.readings == start.world.net.readings && p.status != Escaping
            && (p.status == Dying ==> start.status == Dying || p.world.net.script == [])
  {
    hide After;
    if n > 0 {
      PullReadsNothing(start, actions, n - 1);
    }
  }

  /** The readings a call takes, and whether their last makes an exception escape or the process die. */
  ghost predicate EndsAt(before: seq<Reading>, o: Outcome, k: nat) {
    && ReadUpTo(before, o.world.net.readings, k)
    && (o.ending == Escaped <==> LastOf(before, k) == Fails)
    && (LastOf(before, k) == Dies ==> o.ending == Died)
    && (o.ending == Died ==> LastOf(before, k) == Dies || o.world.net.script == [])
  }

  lemma RevertEndsAt(cfg: Config, w: World, steps: seq<Step>, verification: seq<LiveFinding>, cause: Cause,
                     actions: seq<ChangeAction>, flows: seq<Flow>) returns (k: nat)
    ensures EndsAt(w.net.readings, Reverted(cfg, w, steps, verification, cause, actions, flows), k)
  {
    hide Pulled, ReadTimes, Findings, Clean;
    k := 0;
    if cfg.autoRollback {
      var begin := Progress(w, steps, [RollingBack(cause)], Going);
      PullReadsNothing(begin, actions, |actions|);
      var p := Pulled(begin, actions, |actions|);
      if p.status == Going {
        k := ReadTimesReads(p.world, |actions|);
      }
    }
  }

  lemma BodyEndsAt(cfg: Config, w: World, actions: seq<ChangeAction>, flows: seq<Flow>) returns (k: nat)
    ensures EndsAt(w.net.readings, AppliedBody(cfg, w, actions, flows), k)
  {
    hide Pushed, Reverted, ReadTimes, Findings, Clean;
    var p := Pushed(cfg, w, actions, |actions|);
    k := PushTracks(cfg, w, actions, |actions|);
    if p.status == Stopped {
      var m := RevertEndsAt(cfg, p.world, p.steps, [], SendingFailed, actions, flows);
      ReadingOn(w.net.readings, p.world.net.readings,
                Reverted(cfg, p.world, p.steps, [], SendingFailed, actions, flows).world.net.readings, k, m);
      k := k + m;
    } else if p.status == Going {
      var (world, reading) := ReadTimes(p.world, |actions|);
      var m := ReadTimesReads(p.world, |actions|);
      ReadingOn(w.net.readings, p.world.net.readings, world.net.readings, k, m);
      k := k + m;
      var findings := Findings(world.net.fleet, actions, flows, cfg.parse, |actions|, true);
      if reading == Shows && !Clean(findings) {
        var o := Reverted(cfg, world, p.steps, findings, VerificationFailed, actions, flows);
        var l := RevertEndsAt(cfg, world, p.steps, findings, VerificationFailed, actions, flows);
        ReadingOn(w.net.readings, world.net.readings, o.world.net.readings, k, l);
        k := k + l;
      }
    }
  }

  /**
   Every call takes readings in turn, stops at the first that shows no policy, and lets
   an exception out exactly when that one fails.  It dies only when that one finds the
   process dead, or when the devices answer no more sends.
   */
  lemma EscapeIsAFailedRead(cfg: Config, w: World, actions: seq<ChangeAction>, flows: seq<Flow>)
    ensures var o := AppliedTo(cfg, w, actions, flows);
            exists k: nat ::
              && ReadUpTo(w.net.readings, o.world.net.readings, k)
              && (o.ending == Escaped <==> k > 0 && w.net.readings[k - 1] == Fails)
              && (k > 0 && w.net.readings[k - 1] == Dies ==> o.ending == Died)
              && (o.ending == Died ==> (k > 0 && w.net.readings[k - 1] == Dies) || o.world.net.script == [])
  {
    hide AppliedBody, Reasons;
    var k := BodyEndsAt(cfg, w.(sessions := []), actions, flows);
    assert ReadUpTo(w.net.readings, w.net.readings, 0);
    assert EndsAt(w.net.readings, AppliedTo(cfg, w, actions, flows), k) ||
           AppliedTo(cfg, w, actions, flows).world == w;
  }

  /** With no failing read ahead, no exception escapes. */
  lemma NoFailedReadNoEscape(cfg: Config, w: World, actions: seq<ChangeAction>, flows: seq<Flow>)
    requires forall j | 0 <= j < |w.net.readings| :: w.net.readings[j] != Fails
    ensures AppliedTo(cfg, w, actions, flows).ending != Escaped
  {
    hide AppliedTo;
    EscapeIsAFailedRead(cfg, w, actions, flows);
  }

  // ---------------------------------------------------------------------
  // What a failed read leaves behind
  // ---------------------------------------------------------------------

  /** The next n sends are delivered, whatever the devices make of them. */
  ghost predicate Delivers(script: seq<Reaction>, n: nat) {
    n <= |script| && forall i | 0 <= i < n :: script[i].connects && !script[i].raises
  }

  /** The readings a change takes before its reversal: one for each action looked up, and one for each checked. */
  function ReadsBeforeReversal(cfg: Config, actions: seq<ChangeAction>): nat {
    (if cfg.skipLanded then |actions| else 0) + |actions|
  }

  /** Nothing was sent but commands of the change itself. */
  ghost predicate OnlyForward(actions: seq<ChangeAction>, before: seq<(string, Command)>,
                              after: seq<(string, Command)>) {
    && |before| <= |after| && after[..|before|] == before
    && forall k | |before| <= k < |after| ::
         exists i :: 0 <= i < |actions|
           && after[k] == (actions[i].device, Render(actions[i].command, actions[i].position))
  }

  /** After n actions: going, with the lookups' readings taken, until the failing reading k is among them. */
  ghost predicate UntilRead(cfg: Config, w: World, p: Progress, actions: seq<ChangeAction>, n: nat, k: nat)
    requires n <= |actions| && k < |w.net.readings|
  {
    var looked := if cfg.skipLanded then n else 0;
    && OnlyForward(actions, w.net.sent, p.world.net.sent)
    && (!cfg.skipLanded ==> |p.world.net.sent| == |w.net.sent| + n)
    && if looked <= k then
         && p.status == Going && Delivers(p.world.net.script, |actions| - n)
         && p.world.net.readings == w.net.readings[looked..]
       else p.status == Escaping
  }

  lemma {:induction false} PushedUntilRead(cfg: Config, w: World, actions: seq<ChangeAction>, n: nat, k: nat)
    requires n <= |actions| && forall i | 0 <= i < |actions| :: ParseCommand(cfg.parse, actions[i].command).Some?
    requires Delivers(w.net.script, |actions|)
    requires k < |w.net.readings| && w.net.readings[k] == Fails && forall j | 0 <= j < k :: w.net.readings[j] == Shows
    ensures UntilRead(cfg, w, Pushed(cfg, w, actions, n), actions, n, k)
  {
    hide PushedOne, Delivers, OnlyForward;
    if n == 0 {
      NothingForward(actions, w.net.sent);
      assert w.net.readings[0..] == w.net.readings;
    } else {
      PushedUntilRead(cfg, w, actions, n - 1, k);
      var p := Pushed(cfg, w, actions, n - 1);
      if p.status == Going {
        OnePushUntilRead(cfg, w, p, actions, n - 1, k);
      }
    }
  }

  lemma OnePushUntilRead(cfg: Config, w: World, p: Progress, actions: seq<ChangeAction>, n: nat, k: nat)
    requires n < |actions| && p.status == Going && ParseCommand(cfg.parse, actions[n].command).Some?
    requires k < |w.net.readings| && w.net.readings[k] == Fails && forall j | 0 <= j < k :: w.net.readings[j] == Shows
    requires UntilRead(cfg, w, p, actions, n, k)
    ensures UntilRead(cfg, w, PushedOne(cfg, p, actions[n]), actions, n + 1, k)
  {
    hide PushedOne, Delivers, OnlyForward;
    OneMorePush(cfg, p, actions, n, |actions| - n - 1);
    ForwardGrows(actions, w.net.sent, p.world.net.sent, n);
    if cfg.skipLanded {
      assert p.world.net.readings[0] == w.net.readings[n];
      assert w.net.readings[n..][1..] == w.net.readings[n + 1..];
    }
  }

  lemma NothingForward(actions: seq<ChangeAction>, sent: seq<(string, Command)>)
    ensures OnlyForward(actions, sent, sent)
  {
  }

  lemma ForwardGrows(actions: seq<ChangeAction>, before: seq<(string, Command)>, sent: seq<(string, Command)>, i: nat)
    requires i < |actions| && OnlyForward(actions, before, sent)
    ensures OnlyForward(actions, before,
                        sent + [(actions[i].device, Render(actions[i].command, actions[i].position))])
  {
    hide Render;
  }

  lemma OneMorePush(cfg: Config, p: Progress, actions: seq<ChangeAction>, i: nat, left: nat)
    requires i < |actions| && p.status == Going && ParseCommand(cfg.parse, actions[i].command).Some?
    requires Delivers(p.world.net.script, left + 1)
    ensures var q, readings := PushedOne(cfg, p, actions[i]), p.world.net.readings;
            && (q.world.net.sent == p.world.net.sent ||
                q.world.net.sent == p.world.net.sent
                                    + [(actions[i].device, Render(actions[i].command, actions[i].position))])
            && (!cfg.skipLanded ==> |q.world.net.sent| == |p.world.net.sent| + 1)
            && (!cfg.skipLanded ==> q.status == Going && q.world.net.readings == readings)
            && (cfg.skipLanded && readings != []
                ==> q.status == StatusAfter(readings[0]) && q.world.net.readings == readings[1..])
            && (q.status == Going ==> Delivers(q.world.net.script, left))
  {
    hide Landed, After, Render;
  }

  /**
   When the sends are delivered and a read before the reversal is the first to fail, the
   call ends without a result and without a reversal: nothing but the change's own
   commands was sent, and all of them unless a lookup failed.
   */
  lemma FailedReadLeavesTheChange(cfg: Config, w: World, actions: seq<ChangeAction>, flows: seq<Flow>, k: nat)
    requires GuardOk(actions, flows, cfg.allowed, cfg.parse) && Delivers(w.net.script, |actions|)
    requires k < |w.net.readings| && w.net.readings[k] == Fails && forall j | 0 <= j < k :: w.net.readings[j] == Shows
    requires k < ReadsBeforeReversal(cfg, actions)
    ensures var o := AppliedTo(cfg, w, actions, flows);
            && o.ending == Escaped && OnlyForward(actions, w.net.sent, o.world.net.sent)
            && (!cfg.skipLanded ==> |o.world.net.sent| == |w.net.sent| + |actions|)
            && o.world.net.fleet == Pushed(cfg, w.(sessions := []), actions, |actions|).world.net.fleet
  {
    hide Findings, Clean, Reasons, Pushed, Reverted, ReadTimes, OnlyForward, Delivers;
    GuardIsExact(actions, flows, cfg.allowed, cfg.parse);
    var start := w.(sessions := []);
    PushedUntilRead(cfg, start, actions, |actions|, k);
    var p := Pushed(cfg, start, actions, |actions|);
    if p.status == Going {
      var looked := if cfg.skipLanded then |actions| else 0;
      ReadingOnlyReads(p.world, |actions|);
      FailsWithin(p.world, |actions|, k - looked);
    }
  }

  lemma {:induction false} FailsWithin(w: World, n: nat, k: nat)
    requires k < n && k < |w.net.readings| && w.net.readings[k] == Fails
    requires forall j | 0 <= j < k :: w.net.readings[j] == Shows
    ensures ReadTimes(w, n).1 == Fails
  {
    if k == n - 1 {
      ShowsUpTo(w, n - 1);
    } else {
      FailsWithin(w, n - 1, k);
    }
  }

  lemma {:induction false} ShowsUpTo(w: World, n: nat)
    requires n <= |w.net.readings| && forall j | 0 <= j < n :: w.net.readings[j] == Shows
    ensures ReadTimes(w, n).1 == Shows && ReadTimes(w, n).0.net.readings == w.net.readings[n..]
  {
    if n > 0 {
      ShowsUpTo(w, n - 1);
    }
  }

  // ---------------------------------------------------------------------
  // Sessions
  // ---------------------------------------------------------------------

  ghost predicate Distinct(names: seq<string>) {
    forall i, j | 0 <= i < j < |names| :: names[i] != names[j]
  }

  /** Since `start`, exactly the sessions now held were opened, one per device, and none was closed. */
  ghost predicate SessionsAccounted(start: Network, w: World) {
    && Distinct(w.sessions)
    && w.net.openings == start.openings + w.sessions
    && w.net.closings == start.closings
  }

  lemma SendAccounts(start: Network, w: World, device: string, command: Command)
    requires SessionsAccounted(start, w)
    ensures SessionsAccounted(start, Send(w, device, command).0)
  {
    assert (start.openings + w.sessions) + [device] == start.openings + (w.sessions + [device]);
  }

  lemma PushOneAccounts(start: Network, cfg: Config, p: Progress, action: ChangeAction)
    requires p.status == Going && SessionsAccounted(start, p.world)
    ensures SessionsAccounted(start, PushedOne(cfg, p, action).world)
  {
    hide Send, Landed, ParseCommand;
    SendAccounts(start, Looked(cfg, p, action).world, action.device, Render(action.command, action.position));
  }

  lemma NothingOpened(w: World)
    requires w.sessions == []
    ensures SessionsAccounted(w.net, w)
  {
  }

  lemma {:induction false} PushAccounts(cfg: Config, w: World, actions: seq<ChangeAction>, n: nat)
    requires n <= |actions| && w.sessions == []
    ensures SessionsAccounted(w.net, Pushed(cfg, w, actions, n).world)
  {
    hide PushedOne, SessionsAccounted;
    if n == 0 {
      NothingOpened(w);
    } else {
      PushAccounts(cfg, w, actions, n - 1);
      var p := Pushed(cfg, w, actions, n - 1);
      if p.status == Going {
        PushOneAccounts(w.net, cfg, p, actions[n - 1]);
      }
    }
  }

  lemma {:induction false} PullAccounts(begin: Network, start: Progress, actions: seq<ChangeAction>, n: nat)
    requires n <= |actions| && SessionsAccounted(begin, start.world)
    ensures SessionsAccounted(begin, Pulled(start, actions, n).world)
  {
    if n > 0 {
      PullAccounts(begin, start, actions, n - 1);
      var p, action := Pulled(start, actions, n - 1), actions[|actions| - n];
      SendAccounts(begin, p.world, action.device, Render(action.rollback, action.position));
    }
  }

  lemma RevertAccounts(begin: Network, cfg: Config, w: World, steps: seq<Step>, verification: seq<LiveFinding>,
                       cause: Cause,
                       actions: seq<ChangeAction>, flows: seq<Flow>)
    requires SessionsAccounted(begin, w)
    ensures SessionsAccounted(begin, Reverted(cfg, w, steps, verification, cause, actions, flows).world)
  {
    hide Findings, Clean, Pulled, ReadTimes;
    var start := Progress(w, steps, [RollingBack(cause)], Going);
    PullAccounts(begin, start, actions, |actions|);
    ReadingOnlyReads(Pulled(start, actions, |actions|).world, |actions|);
  }

  /** Short of the process dying, and even when an exception escapes, each device gets at most
      one session and every session is closed. */
  lemma SessionsAreClosed(cfg: Config, w: World, actions: seq<ChangeAction>, flows: seq<Flow>)
    requires GuardOk(actions, flows, cfg.allowed, cfg.parse)
    ensures var o := AppliedTo(cfg, w, actions, flows);
            && (o.ending.Died? ==> o.world.net.closings == w.net.closings)
            && (!o.ending.Died? ==>
                  && o.world.sessions == []
                  && exists used :: Distinct(used) &&
                       o.world.net.openings == w.net.openings + used && o.world.net.closings == w.net.closings + used)
  {
    hide Findings, Clean, Reasons, GuardOk, Pushed, Reverted, ReadTimes;
    GuardIsExact(actions, flows, cfg.allowed, cfg.parse);
    var start := w.(sessions := []);
    PushAccounts(cfg, start, actions, |actions|);
    var p := Pushed(cfg, start, actions, |actions|);
    ReadingOnlyReads(p.world, |actions|);
    var read := ReadTimes(p.world, |actions|).0;
    RevertAccounts(w.net, cfg, p.world, p.steps, [], SendingFailed, actions, flows);
    RevertAccounts(w.net, cfg, read, p.steps, Findings(read.net.fleet, actions, flows, cfg.parse, |actions|, true),
                   VerificationFailed, actions, flows);
    var body := AppliedBody(cfg, start, actions, flows);
    assert SessionsAccounted(w.net, body.world);
    assert Distinct(body.world.sessions);
  }
}

/** The executor over the line-shifting device: a failed change leaves no trace. */
module ExecutedRollback {
  import opened Wrappers
  import opened AclPolicy
  import opened DevicePolicy
  import opened Rollback
  import opened Live
  import opened Execution
  import opened TerminalStates

  /** The action adds an access-list line and its rollback removes that same line. */
  ghost predicate Reversible(action: ChangeAction) {
    var command, rollback := Render(action.command, action.position), Render(action.rollback, action.position);
    && command.Acl? && !command.removal && (command.line.Some? ==> command.line.value >= 0)
    && rollback.Acl? && rollback.removal && (rollback.line.Some? ==> rollback.line.value >= 0)
    && SameName(rollback.acl, rollback.body, command.acl, command.body)
  }

  ghost predicate AllReversible(actions: seq<ChangeAction>) {
    forall i | 0 <= i < |actions| :: Reversible(actions[i])
  }

  ghost function ChangeOf(action: ChangeAction): Change
    requires Reversible(action)
  {
    var command := Render(action.command, action.position);
    Change(action.device, command.acl, command.line, command.body)
  }

  ghost function Changes(actions: seq<ChangeAction>): (cs: seq<Change>)
    requires AllReversible(actions)
    ensures |cs| == |actions|
  {
    seq(|actions|, i requires 0 <= i < |actions| => ChangeOf(actions[i]))
  }

  /** The device obeys or silently ignores, whether or not the send then fails. */
  ghost predicate ObeysOrIgnores(script: seq<Reaction>) {
    forall i | 0 <= i < |script| :: script[i].effect == Obey || script[i].effect == Ignore
  }

  ghost predicate Cooperates(script: seq<Reaction>, n: nat) {
    n <= |script| && forall i | 0 <= i < n :: script[i].connects && script[i].effect == Obey && !script[i].raises
  }

  /** Every read there is shows the policy. */
  ghost predicate AllShown(readings: seq<Reading>) {
    forall i | 0 <= i < |readings| :: readings[i] == Shows
  }

  lemma {:induction false} ReadsShow(w: World, n: nat)
    requires AllShown(w.net.readings)
    ensures var (w', reading) := ReadTimes(w, n);
            && reading == Shows && AllShown(w'.net.readings)
            && w' == World(w.net.(readings := w'.net.readings), w.sessions)
  {
    if n > 0 {
      ReadsShow(w, n - 1);
    }
  }

  /** Some of the additions took effect, in order; nothing else changed. */
  lemma {:induction false} PushedSome(cfg: Config, w: World, actions: seq<ChangeAction>, n: nat)
      returns (took: seq<bool>)
    requires n <= |actions| && AllReversible(actions) && ObeysOrIgnores(w.net.script) && AllShown(w.net.readings)
    ensures |took| == n
    ensures var p := Pushed(cfg, w, actions, n);
            && p.status != Escaping
            && p.world.net.fleet == PushAll(w.net.fleet, Changes(actions)[..n], took)
            && ObeysOrIgnores(p.world.net.script) && AllShown(p.world.net.readings)
  {
    if n == 0 {
      took := [];
    } else {
      var front := PushedSome(cfg, w, actions, n - 1);
      var p, q := Pushed(cfg, w, actions, n - 1), Pushed(cfg, w, actions, n);
      var cs := Changes(actions);
      assert cs[..n][..n - 1] == cs[..n - 1];
      var has := q.world.net.fleet != p.world.net.fleet;
      took := front + [has];
      assert took[..n - 1] == front;
      assert cs[..n][n - 1] == ChangeOf(actions[n - 1]);
      if p.status == Going {
        PushedOneStep(cfg, p, actions[n - 1]);
      }
    }
  }

  lemma PushedOneStep(cfg: Config, p: Progress, action: ChangeAction)
    requires Reversible(action) && p.status == Going
    requires ObeysOrIgnores(p.world.net.script) && AllShown(p.world.net.readings)
    ensures var q := PushedOne(cfg, p, action);
            && q.status != Escaping
            && (q.world.net.fleet == p.world.net.fleet
                || q.world.net.fleet == AddOn(p.world.net.fleet, ChangeOf(action)))
            && ObeysOrIgnores(q.world.net.script) && AllShown(q.world.net.readings)
  {
    hide Landed, AddOn, Obeyed;
    ObeyingAdds(p.world.net.fleet, action);
  }

  lemma ObeyingAdds(fleet: Fleet, action: ChangeAction)
    requires Reversible(action)
    ensures Obeyed(fleet, action.device, Render(action.command, action.position), false) ==
              AddOn(fleet, ChangeOf(action))
  {
    hide Added;
  }

  lemma PulledOneStep(p: Progress, action: ChangeAction)
    requires Reversible(action) && Cooperates(p.world.net.script, 1) && p.status == Going
    ensures var q := PulledOne(p, action);
            && q.status == Going
            && q.world.net.fleet == RemoveOn(p.world.net.fleet, ChangeOf(action))
            && q.world.net.script == p.world.net.script[1..]
            && q.world.net.readings == p.world.net.readings
  {
    var rollback, change := Render(action.rollback, action.position), ChangeOf(action);
    if action.device in p.world.net.fleet {
      SameNameSameRemoval(p.world.net.fleet[action.device], change.acl, change.body, rollback.body);
    }
    hide Removed;
  }

  lemma UndoPeels(fleet: Fleet, cs: seq<Change>, n: nat)
    requires 0 < n <= |cs|
    ensures UndoAll(fleet, cs[..n]) == UndoAll(RemoveOn(fleet, cs[n - 1]), cs[..n - 1])
  {
    assert cs[..n][..n - 1] == cs[..n - 1];
  }

  lemma {:induction false} PulledAll(start: Progress, actions: seq<ChangeAction>, n: nat)
    requires n <= |actions| && AllReversible(actions) && start.status == Going
    requires Cooperates(start.world.net.script, |actions|)
    ensures var p := Pulled(start, actions, n);
            && p.status == Going
            && p.world.net.script == start.world.net.script[n..]
            && p.world.net.readings == start.world.net.readings
            && UndoAll(p.world.net.fleet, Changes(actions)[..|actions| - n])
              == UndoAll(start.world.net.fleet, Changes(actions))
  {
    hide PulledOne, RemoveOn, UndoAll, Reversible, SameName;
    var cs := Changes(actions);
    if n == 0 {
      assert cs[..|actions|] == cs;
    } else {
      PulledAll(start, actions, n - 1);
      var p := Pulled(start, actions, n - 1);
      assert p.world.net.script[0] == start.world.net.script[n - 1];
      PulledOneStep(p, actions[|actions| - n]);
      assert start.world.net.script[n - 1..][1..] == start.world.net.script[n..];
      UndoPeels(p.world.net.fleet, cs, |actions| - n + 1);
    }
  }

  /** The reversal itself, from any state the additions can leave. */
  lemma ReversalUndoes(cfg: Config, w: World, steps: seq<Step>, verification: seq<LiveFinding>, cause: Cause,
                       actions: seq<ChangeAction>, flows: seq<Flow>)
    requires cfg.autoRollback && AllReversible(actions)
    requires Cooperates(w.net.script, |actions|) && AllShown(w.net.readings)
    ensures var o := Reverted(cfg, w, steps, verification, cause, actions, flows);
            && o.ending.Returned?
            && o.world.net.fleet == UndoAll(w.net.fleet, Changes(actions))
            && o.ending.result.state != Applied
            && (o.ending.result.state == RolledBack <==> Withdrawn(o.world.net.fleet, actions, flows, cfg.parse))
  {
    var begin := Progress(w, steps, [RollingBack(cause)], Going);
    PulledAll(begin, actions, |actions|);
    var p := Pulled(begin, actions, |actions|);
    assert Changes(actions)[..0] == [];
    assert UndoAll(p.world.net.fleet, []) == p.world.net.fleet;
    ReadsShow(p.world, |actions|);
    ReadBackIsExact(p.world.net.fleet, actions, flows, cfg.parse);
    hide Pulled, Findings, Clean, Withdrawn, UndoAll, ReadTimes;
  }

  /** The devices go along with the reversal and every read shows the policy. */
  ghost predicate ReversalGoesThrough(cfg: Config, w: World, actions: seq<ChangeAction>) {
    && ObeysOrIgnores(w.net.script) && AllShown(w.net.readings)
    && var p := Pushed(cfg, w.(sessions := []), actions, |actions|);
       p.status != Dying && Cooperates(p.world.net.script, |actions|)
  }

  /**
   Whichever sends took effect before the change failed, a reversal that the devices
   go along with puts every rule and line number back exactly when no action names a
   rule that was there before.  ROLLED_BACK is reported exactly when the rules are
   gone and the evidence is denied, whether or not the devices are as they were.
   */
  lemma FailedChangeLeavesNoTraceExactlyWhen(cfg: Config, w: World, actions: seq<ChangeAction>, flows: seq<Flow>)
    requires GuardOk(actions, flows, cfg.allowed, cfg.parse) && AllReversible(actions) && cfg.autoRollback
    requires ReversalGoesThrough(cfg, w, actions)
    ensures var o := AppliedTo(cfg, w, actions, flows);
            && o.ending.Returned?
            && (o.ending.result.state != Applied ==>
                  && o.world.net.fleet == UndoAll(Pushed(cfg, w.(sessions := []), actions, |actions|).world.net.fleet,
                                                  Changes(actions))
                  && (o.world.net.fleet == w.net.fleet <==>
                        forall i | 0 <= i < |actions| :: !PresentOn(w.net.fleet, Changes(actions)[i]))
                  && (o.ending.result.state == RolledBack <==> Withdrawn(o.world.net.fleet, actions, flows, cfg.parse)))
  {
    hide Pushed, Reverted, Findings, Clean, Reasons, Withdrawn, UndoAll, PushAll, GuardOk, Reversible, ReadTimes;
    var start := w.(sessions := []);
    var p := Pushed(cfg, start, actions, |actions|);
    var took := PushedSome(cfg, start, actions, |actions|);
    var cs := Changes(actions);
    assert cs[..|actions|] == cs;
    RollbackRestoresExactlyWhen(w.net.fleet, cs, took);
    GuardIsExact(actions, flows, cfg.allowed, cfg.parse);
    ReadsShow(p.world, |actions|);
    var read := ReadTimes(p.world, |actions|).0;
    var findings := Findings(p.world.net.fleet, actions, flows, cfg.parse, |actions|, true);
    ReversalUndoes(cfg, p.world, p.steps, [], SendingFailed, actions, flows);
    ReversalUndoes(cfg, read, p.steps, findings, VerificationFailed, actions, flows);
  }

  // ---------------------------------------------------------------------
  // Reported as rolled back, and yet changed
  // ---------------------------------------------------------------------

  function Reads(text: string): Option<Body> {
    if text == "permit" then Some(PAIR) else if text == "deny" then Some(NOBODY) else None
  }

  function Fw(rules: seq<DeviceRule>): Fleet {
    map["fw" := rules]
  }

  const OBEYS := Reaction(true, Obey, false, "")

  /** It adds the very permit that the example list holds on line 20, at line 5. */
  const ADDING := ChangeAction("fw", Acl(false, "A", None, "permit"), Acl(true, "A", None, "permit"), Some(5), true,
                               true)

  lemma DenyInFront(rest: seq<AclRule>)
    requires forall i | 0 <= i < |rest| :: rest[i].line > 10
    ensures EvaluateFlow([AclRule(10, NOBODY, "A")] + rest, REACHABLE).action == Deny
  {
    var policy := [AclRule(10, NOBODY, "A")] + rest;
    EvaluateIsFirstMatch(policy, REACHABLE);
    assert Decides(policy, REACHABLE, 0);
  }

  /**
   The condition is needed.  The device obeys every send: it ignores the duplicate,
   the read-back fails on the deny in front, the reversal takes the earlier permit
   away, and the executor reports success.
   */
  lemma RolledBackYetChanged(cfg: Config, w: World)
    requires cfg == Config({"fw"}, true, false, Reads)
    requires w.net.fleet == Fw(HELD) && w.net.readings == [] && w.net.script == [OBEYS, OBEYS]
    ensures var o := AppliedTo(cfg, w, [ADDING], [REACHABLE]);
            && o.ending.Returned? && o.ending.result.state == RolledBack
            && o.world.net.fleet == Fw(HELD[..1]) != w.net.fleet
  {
    var actions, flows := [ADDING], [REACHABLE];
    DuplicateIsIgnored(cfg, w.(sessions := []));
    var p := Pushed(cfg, w.(sessions := []), actions, 1);
    assert p.world.net.script[0] == OBEYS;
    assert AllReversible(actions);
    FailedChangeLeavesNoTraceExactlyWhen(cfg, w, actions, flows);
    HeldIsNotInForce(cfg.parse);
    AppliedExactlyWhen(cfg, w, actions, flows);
    EarlierRuleGoes();
    hide AppliedTo, Pushed, ReadDevice, UndoAll;
  }

  lemma DuplicateIsIgnored(cfg: Config, start: World)
    requires !cfg.skipLanded
    requires start.net.fleet == Fw(HELD) && start.sessions == [] && start.net.script == [OBEYS, OBEYS]
    ensures var p := Pushed(cfg, start, [ADDING], 1);
            && p.status == Going && p.world.net.fleet == Fw(HELD)
            && p.world.net.script == [OBEYS] && p.world.net.readings == start.net.readings
  {
    assert Pushed(cfg, start, [ADDING], 0) == Progress(start, [], [], Going);
    assert Names(HELD[1], "A", "permit");
    assert Present(HELD, "A", "permit");
  }

  lemma HeldReads()
    ensures ReadDevice(Fw(HELD), "fw", Reads) == [AclRule(10, NOBODY, "A"), AclRule(20, PAIR, "A")]
  {
    var policy := ReadDevice(Fw(HELD), "fw", Reads);
    assert policy[0] == AclRule(10, NOBODY, "A");
    assert policy[1] == AclRule(20, PAIR, "A");
  }

  lemma HeldIsNotInForce(parse: Parser)
    requires parse == Reads
    ensures !InForce(Fw(HELD), [ADDING], [REACHABLE], parse)
  {
    HeldReads();
    hide ReadDevice, EvaluateFlow, Stands, ParseCommand;
    DenyInFront([AclRule(20, PAIR, "A")]);
    assert [AclRule(10, NOBODY, "A")] + [AclRule(20, PAIR, "A")] == [AclRule(10, NOBODY, "A"), AclRule(20, PAIR, "A")];
    assert EvaluateFlow(ReadDevice(Fw(HELD), [ADDING][0].device, parse), REACHABLE).action != Permit;
    assert REACHABLE in [REACHABLE];
  }

  lemma EarlierRuleGoes()
    ensures AllReversible([ADDING])
    ensures UndoAll(Fw(HELD), Changes([ADDING])) == Fw(HELD[..1])
    ensures Withdrawn(Fw(HELD[..1]), [ADDING], [REACHABLE], Reads)
  {
    var cs := Changes([ADDING]);
    assert cs == [Change("fw", "A", Some(5), "permit")];
    assert cs[..0] == [];
    assert !Names(HELD[0], "A", "permit");
    assert Names(HELD[1], "A", "permit");
    assert FindNamed(HELD, "A", "permit") == Some(1);
    assert DropAt(HELD, 1) == HELD[..1];
    assert FindNamed(HELD[..1], "A", "permit") == None;
    assert RemoveOn(Fw(HELD), cs[0]) == Fw(HELD[..1]);
    assert UndoAll(Fw(HELD[..1]), cs[..0]) == Fw(HELD[..1]);
    var policy := ReadDevice(Fw(HELD[..1]), "fw", Reads);
    assert policy == [AclRule(10, NOBODY, "A")] + [];
    HoldsIsStanding(policy, PAIR);
    DenyInFront([]);
  }
}
