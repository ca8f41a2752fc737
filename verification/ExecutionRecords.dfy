/** What the result of an execution puts on record (apps/api/app/execute/device.py and idempotent.py). */
module ExecutionRecords {
  import opened Wrappers
  import opened AclPolicy
  import opened Live
  import opened Execution
  import opened TerminalStates

  /** The device is reached: it has a session, or one can be opened. */
  ghost predicate Reached(w: World, device: string, reaction: Reaction) {
    device in w.sessions || reaction.connects
  }

  /** A send leaves one step, with the device's words as output or as error, and goes out exactly
      when the device is reached. */
  lemma StepTellsTheReaction(p: Progress, device: string, command: Command)
    requires p.status == Going
    ensures var q, script := Sent(p, device, command), p.world.net.script;
            if script == [] then q == p.(status := Dying)
            else
              var reached := Reached(p.world, device, script[0]);
              var through := reached && !script[0].raises;
              && q.lines == p.lines && q.world.net.script == script[1..]
              && q.status == (if through then Going else Stopped)
              && q.steps == p.steps
                + [if through then Step(command, script[0].text, "") else Step(command, "", script[0].text)]
              && q.world.net.sent == p.world.net.sent + (if reached then [(device, command)] else [])
              && q.world.net.fleet ==
                   (if reached then After(p.world.net.fleet, device, command, script[0].effect) else p.world.net.fleet)
              && q.world.sessions == p.world.sessions
                + (if reached && device !in p.world.sessions then [device] else [])
  {
  }

  function Forward(actions: seq<ChangeAction>, k: nat): Command
    requires k < |actions|
  {
    Render(actions[k].command, actions[k].position)
  }

  /** The k-th reversal undoes the k-th action from the end. */
  function Backward(actions: seq<ChangeAction>, k: nat): Command
    requires k < |actions|
  {
    Render(actions[|actions| - 1 - k].rollback, actions[|actions| - 1 - k].position)
  }

  ghost predicate AreForward(actions: seq<ChangeAction>, steps: seq<Step>) {
    |steps| <= |actions| && forall k | 0 <= k < |steps| :: steps[k].command == Forward(actions, k)
  }

  ghost predicate AreBackward(actions: seq<ChangeAction>, steps: seq<Step>) {
    |steps| <= |actions| && forall k | 0 <= k < |steps| :: steps[k].command == Backward(actions, k)
  }

  lemma {:induction false} PushRecords(cfg: Config, w: World, actions: seq<ChangeAction>, n: nat)
    requires n <= |actions|
    ensures var p := Pushed(cfg, w, actions, n);
            && AreForward(actions, p.steps) && |p.steps| <= n && p.lines == []
            && (p.status == Going ==> |p.steps| == n)
  {
    hide PushedOne, Render;
    if n > 0 {
      PushRecords(cfg, w, actions, n - 1);
      var p := Pushed(cfg, w, actions, n - 1);
      if p.status == Going {
        OnePushRecords(cfg, p, actions[n - 1]);
      }
    }
  }

  lemma OnePushRecords(cfg: Config, p: Progress, action: ChangeAction)
    requires p.status == Going
    ensures var q := PushedOne(cfg, p, action);
            && q.lines == p.lines
            && (q.steps == p.steps || (|q.steps| == |p.steps| + 1 && q.steps[..|p.steps|] == p.steps
                                       && q.steps[|p.steps|].command == Render(action.command, action.position)))
            && (q.status == Going ==> q.steps != p.steps)
  {
    hide Landed, After;
  }

  lemma {:induction false} PullRecords(start: Progress, actions: seq<ChangeAction>, n: nat) returns (back: seq<Step>)
    requires n <= |actions| && start.status == Going && forall i | 0 <= i < |actions| :: actions[i].rollback != Blank
    ensures var p := Pulled(start, actions, n);
            && p.steps == start.steps + back && AreBackward(actions, back) && |back| <= n
            && (p.status == Going ==> |back| == n)
            && (p.status == Stopped ==> back != [])
            && (p.status == Going || p.status == Stopped ==>
                  p.lines == if back == [] then start.lines else [ReversalSent(back[|back| - 1].command)])
            && p.status != Escaping
  {
    hide Sent, After, Render, AreBackward, PulledOne;
    back := [];
    if n == 0 {
      NothingBackward(actions);
    } else {
      back := PullRecords(start, actions, n - 1);
      var p := Pulled(start, actions, n - 1);
      if p.status == Going {
        var step := OnePullRecords(p, actions[|actions| - n]);
        if step.Some? {
          BackwardGrows(actions, back, step.value);
          back := back + [step.value];
        }
      }
    }
  }

  lemma OnePullRecords(p: Progress, action: ChangeAction) returns (step: Option<Step>)
    requires p.status == Going && action.rollback != Blank
    ensures var q, command := PulledOne(p, action), Render(action.rollback, action.position);
            && q.status != Escaping
            && (step.None? <==> q.status == Dying)
            && (step.None? ==> q.steps == p.steps)
            && (step.Some? ==>
                  step.value.command == command && q.steps == p.steps + [step.value]
                    && q.lines == [ReversalSent(command)])
  {
    var command := Render(action.rollback, action.position);
    StepTellsTheReaction(p.(lines := [ReversalSent(command)]), action.device, command);
    hide Sent, After, Render;
    var q := PulledOne(p, action);
    step := if q.status == Dying then None else Some(q.steps[|p.steps|]);
  }

  lemma BackwardGrows(actions: seq<ChangeAction>, back: seq<Step>, step: Step)
    requires AreBackward(actions, back) && |back| < |actions| && step.command == Backward(actions, |back|)
    ensures AreBackward(actions, back + [step])
  {
    hide Backward;
  }

  /** The steps of a result: the actions carried out in order, and then the reversals, last action first. */
  ghost predicate Recorded(actions: seq<ChangeAction>, steps: seq<Step>, forth: seq<Step>, back: seq<Step>) {
    steps == forth + back && AreForward(actions, forth) && AreBackward(actions, back)
  }

  /** What is on record in each terminal state. */
  ghost predicate Tells(cfg: Config, o: Outcome, actions: seq<ChangeAction>, flows: seq<Flow>,
                        forth: seq<Step>, back: seq<Step>, cause: Cause, first: seq<LiveFinding>)
    requires o.ending.Returned?
  {
    var r, fleet := o.ending.result, o.world.net.fleet;
    && r.mode == "device" && Recorded(actions, r.steps, forth, back)
    && match r.state
       case Refused => false
       case Applied =>
         && |forth| == |actions| && back == [] && r.lines == [Confirmed]
         && r.verification == Findings(fleet, actions, flows, cfg.parse, |actions|, true)
       case RolledBack =>
         && |back| == |actions| > 0 && r.lines == [ReversalSent(back[|back| - 1].command), BackInPreviousState]
         && r.verification == first + Findings(fleet, actions, flows, cfg.parse, |actions|, false)
       case RollbackFailed =>
         if !cfg.autoRollback then back == [] && r.lines == [LeftAsItIs(cause)] && r.verification == first
         else
           && back != []
           && var last := ReversalSent(back[|back| - 1].command);
              if r.lines == [last, ReversalFailed] then r.verification == first
              else
                && |back| == |actions| && r.lines == [last, DidNotReturn]
                && r.verification == first + Findings(fleet, actions, flows, cfg.parse, |actions|, false)
  }

  lemma GuardedIsReversible(cfg: Config, actions: seq<ChangeAction>, flows: seq<Flow>)
    requires GuardOk(actions, flows, cfg.allowed, cfg.parse)
    ensures actions != [] && forall i | 0 <= i < |actions| :: actions[i].rollback != Blank
  {
    forall i | 0 <= i < |actions| ensures actions[i].rollback != Blank {
      assert Executable(actions[i], cfg.allowed, cfg.parse);
    }
  }

  lemma RevertTells(cfg: Config, w: World, forth: seq<Step>, first: seq<LiveFinding>, cause: Cause,
                    actions: seq<ChangeAction>, flows: seq<Flow>) returns (back: seq<Step>)
    requires GuardOk(actions, flows, cfg.allowed, cfg.parse) && AreForward(actions, forth)
    ensures var o := Reverted(cfg, w, forth, first, cause, actions, flows);
            o.ending.Returned? ==> Tells(cfg, o, actions, flows, forth, back, cause, first)
  {
    GuardedIsReversible(cfg, actions, flows);
    hide Pulled, ReadTimes, Findings, Clean, GuardOk, AreForward, Executable;
    back := [];
    if cfg.autoRollback {
      var begin := Progress(w, forth, [RollingBack(cause)], Going);
      back := PullRecords(begin, actions, |actions|);
      hide AreBackward;
      ReadingOnlyReads(Pulled(begin, actions, |actions|).world, |actions|);
      ReversalTells(cfg, w, forth, first, cause, actions, flows, back);
    }
  }

  lemma ReversalTells(cfg: Config, w: World, forth: seq<Step>, first: seq<LiveFinding>, cause: Cause,
                      actions: seq<ChangeAction>, flows: seq<Flow>, back: seq<Step>)
    requires cfg.autoRollback && AreForward(actions, forth) && AreBackward(actions, back) && actions != []
    requires var p := Pulled(Progress(w, forth, [RollingBack(cause)], Going), actions, |actions|);
             && p.steps == forth + back && p.status != Escaping
             && (p.status == Going ==> |back| == |actions|)
             && (p.status == Stopped ==> back != [])
             && (p.status == Going || p.status == Stopped
                 ==> p.lines == (if back == [] then [RollingBack(cause)] else [ReversalSent(back[|back| - 1].command)]))
             && ReadTimes(p.world, |actions|).0.net.fleet == p.world.net.fleet
    ensures var o := Reverted(cfg, w, forth, first, cause, actions, flows);
            o.ending.Returned? ==> Tells(cfg, o, actions, flows, forth, back, cause, first)
  {
    hide Pulled, ReadTimes, Findings, Clean, AreForward, AreBackward;
    var p := Pulled(Progress(w, forth, [RollingBack(cause)], Going), actions, |actions|);
    if p.status == Going || p.status == Stopped {
      var last := ReversalSent(back[|back| - 1].command);
      assert p.lines + [ReversalFailed] == [last, ReversalFailed];
      assert p.lines + [BackInPreviousState] == [last, BackInPreviousState];
      assert p.lines + [DidNotReturn] == [last, DidNotReturn];
      assert [last, DidNotReturn][1] != [last, ReversalFailed][1];
    }
  }

  /**
   Whatever a guarded change ends in, its result lists the actions' commands in order, as
   far as they got, and then the reversals, last first, as far as those got; it says which
   of the endings it was, and carries the findings of each check that was made.
   */
  lemma ResultIsOnRecord(cfg: Config, w: World, actions: seq<ChangeAction>, flows: seq<Flow>) returns (back: seq<Step>)
    requires GuardOk(actions, flows, cfg.allowed, cfg.parse)
    ensures var o, p := AppliedTo(cfg, w, actions, flows), Pushed(cfg, w.(sessions := []), actions, |actions|);
            o.ending.Returned? ==>
              if p.status == Stopped then Tells(cfg, o, actions, flows, p.steps, back, SendingFailed, [])
              else Tells(cfg, o, actions, flows, p.steps, back, VerificationFailed,
                         Findings(p.world.net.fleet, actions, flows, cfg.parse, |actions|, true))
  {
    GuardIsExact(actions, flows, cfg.allowed, cfg.parse);
    var start := w.(sessions := []);
    var p := Pushed(cfg, start, actions, |actions|);
    back := BodyTells(cfg, start, actions, flows);
    hide AppliedBody, Tells, Findings, Reasons, Pushed, GuardOk;
    var a, b := AppliedBody(cfg, start, actions, flows), AppliedTo(cfg, w, actions, flows);
    if p.status == Stopped {
      SameFleetTells(cfg, a, b, actions, flows, p.steps, back, SendingFailed, []);
    } else {
      SameFleetTells(cfg, a, b, actions, flows, p.steps, back, VerificationFailed,
                     Findings(p.world.net.fleet, actions, flows, cfg.parse, |actions|, true));
    }
  }

  lemma BodyTells(cfg: Config, start: World, actions: seq<ChangeAction>, flows: seq<Flow>) returns (back: seq<Step>)
    requires GuardOk(actions, flows, cfg.allowed, cfg.parse)
    ensures var o, p := AppliedBody(cfg, start, actions, flows), Pushed(cfg, start, actions, |actions|);
            o.ending.Returned? ==>
              if p.status == Stopped then Tells(cfg, o, actions, flows, p.steps, back, SendingFailed, [])
              else Tells(cfg, o, actions, flows, p.steps, back, VerificationFailed,
                         Findings(p.world.net.fleet, actions, flows, cfg.parse, |actions|, true))
  {
    PushRecords(cfg, start, actions, |actions|);
    hide Pushed, Reverted, ReadTimes, Findings, Clean, GuardOk, AreForward, AreBackward;
    var p := Pushed(cfg, start, actions, |actions|);
    ReadingOnlyReads(p.world, |actions|);
    var (read, reading) := ReadTimes(p.world, |actions|);
    var findings := Findings(read.net.fleet, actions, flows, cfg.parse, |actions|, true);
    back := [];
    if p.status == Stopped {
      back := RevertTells(cfg, p.world, p.steps, [], SendingFailed, actions, flows);
    } else if p.status == Going && reading == Shows && !Clean(findings) {
      back := RevertTells(cfg, read, p.steps, findings, VerificationFailed, actions, flows);
    } else {
      NothingBackward(actions);
    }
    hide Tells;
  }

  lemma NothingBackward(actions: seq<ChangeAction>)
    ensures AreBackward(actions, [])
  {
  }

  /** Closing the sessions adds nothing to the record. */
  lemma SameFleetTells(cfg: Config, a: Outcome, b: Outcome, actions: seq<ChangeAction>, flows: seq<Flow>,
                       forth: seq<Step>, back: seq<Step>, cause: Cause, first: seq<LiveFinding>)
    requires a.ending == b.ending && (a.ending.Returned? ==> a.world.net.fleet == b.world.net.fleet)
    requires a.ending.Returned? ==> Tells(cfg, a, actions, flows, forth, back, cause, first)
    ensures b.ending.Returned? ==> Tells(cfg, b, actions, flows, forth, back, cause, first)
  {
    hide Findings, Recorded;
  }

  /** A refusal says nothing was done, and gives every reason. */
  lemma RefusalIsOnRecord(cfg: Config, w: World, actions: seq<ChangeAction>, flows: seq<Flow>)
    requires !GuardOk(actions, flows, cfg.allowed, cfg.parse)
    ensures AppliedTo(cfg, w, actions, flows).ending ==
              Returned(ExecutionResult(
                "device", Refused, [RefusedToExecute(Reasons(actions, flows, cfg.allowed, cfg.parse, |actions|))], [],
                  []))
  {
    GuardIsExact(actions, flows, cfg.allowed, cfg.parse);
    hide Reasons, GuardOk;
  }
}
