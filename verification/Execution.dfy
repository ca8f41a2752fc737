/**
 Applying an approved change to devices, undoing it when it fails, and doing so at
 most once per operation key (apps/api/app/execute/device.py and idempotent.py).

 The devices are an adversary.  Each send consumes one reaction of a script: the
 session may be refused, the command may take effect, be ignored, be stored twice
 or leave any state whatever behind, and the send may raise either way.  An
 exhausted script is the process dying at that point.  Each read of a policy
 consumes one reading of a second script, and may raise or find the process dead;
 when that script runs out, reads show the policy.
 */
module Execution {
  import opened Wrappers
  import opened AclPolicy
  import opened DevicePolicy
  import opened Rollback
  import opened Live

  datatype Effect = Obey | Ignore | Duplicate | Become(fleet: Fleet)

  datatype Reaction = Reaction(connects: bool, effect: Effect, raises: bool, text: string)

  datatype Reading = Shows | Fails | Dies

  /** The outside world: devices, session log, commands sent, and what happens next. */
  datatype Network = Network(
    fleet: Fleet, openings: seq<string>, closings: seq<string>, sent: seq<(string, Command)>,
    script: seq<Reaction>, readings: seq<Reading>)

  datatype World = World(net: Network, sessions: seq<string>)

  datatype Delivery = Delivered(output: string) | Failed(error: string) | Crashed

  datatype Step = Step(command: Command, output: string, error: string)

  datatype State = Applied | Refused | RolledBack | RollbackFailed

  datatype Line =
    | RefusedToExecute(reasons: seq<Reason>)
    | Confirmed
    | RollingBack(cause: Cause)
    | LeftAsItIs(cause: Cause)
    | ReversalSent(command: Command)
    | ReversalFailed
    | BackInPreviousState
    | DidNotReturn

  datatype Cause = SendingFailed | VerificationFailed

  datatype ExecutionResult = ExecutionResult(
    mode: string, state: State, lines: seq<Line>, steps: seq<Step>, verification: seq<LiveFinding>)

  /** `skipLanded` tells the idempotent executor from the plain one. */
  datatype Config = Config(allowed: set<string>, autoRollback: bool, skipLanded: bool, parse: Parser)

  /** A call returns, lets an exception out to its caller, or the process dies in it. */
  datatype Ending = Returned(result: ExecutionResult) | Escaped | Died

  datatype Outcome = Outcome(world: World, ending: Ending)

  // ---------------------------------------------------------------------
  // One send
  // ---------------------------------------------------------------------

  /** What a device that understood the command makes of it; a malformed line number is a syntax error. */
  function Obeyed(fleet: Fleet, device: string, command: Command, duplicates: bool): Fleet {
    if device !in fleet || !command.Acl? || (command.line.Some? && command.line.value < 0) then fleet
    else if command.removal then RemoveOn(fleet, Change(device, command.acl, command.line, command.body))
    else if duplicates then fleet[device := Stored(fleet[device], command.acl, command.line, command.body)]
    else AddOn(fleet, Change(device, command.acl, command.line, command.body))
  }

  function After(fleet: Fleet, device: string, command: Command, effect: Effect): Fleet {
    match effect
    case Obey => Obeyed(fleet, device, command, false)
    case Duplicate => Obeyed(fleet, device, command, true)
    case Ignore => fleet
    case Become(other) => other
  }

  function Send(w: World, device: string, command: Command): (World, Delivery) {
    if w.net.script == [] then (w, Crashed)
    else
      var reaction := w.net.script[0];
      var net := w.net.(script := w.net.script[1..]);
      if device !in w.sessions && !reaction.connects then (World(net, w.sessions), Failed(reaction.text))
      else
        var openings := if device in w.sessions then net.openings else net.openings + [device];
        var sessions := if device in w.sessions then w.sessions else w.sessions + [device];
        var sent := net.(openings := openings, sent := net.sent + [(device, command)],
                         fleet := After(net.fleet, device, command, reaction.effect));
        (World(sent, sessions), if reaction.raises then Failed(reaction.text) else Delivered(reaction.text))
  }

  // ---------------------------------------------------------------------
  // Reading policies
  // ---------------------------------------------------------------------

  function ReadOnce(w: World): (World, Reading) {
    if w.net.readings == [] then (w, Shows)
    else (w.(net := w.net.(readings := w.net.readings[1..])), w.net.readings[0])
  }

  /** Up to n reads in turn; the first that does not show a policy is the last. */
  function ReadTimes(w: World, n: nat): (World, Reading) {
    if n == 0 then (w, Shows)
    else
      var (before, reading) := ReadTimes(w, n - 1);
      if reading != Shows then (before, reading) else ReadOnce(before)
  }

  // ---------------------------------------------------------------------
  // The change and its reversal
  // ---------------------------------------------------------------------

  /** `Stopped` at a failed send, which the executor handles; `Escaping` at a failed read, which it does not. */
  datatype Status = Going | Stopped | Escaping | Dying

  datatype Progress = Progress(world: World, steps: seq<Step>, lines: seq<Line>, status: Status)

  function Sent(p: Progress, device: string, command: Command): Progress {
    var (world, delivery) := Send(p.world, device, command);
    match delivery
    case Delivered(output) => p.(world := world, steps := p.steps + [Step(command, output, "")])
    case Failed(error) => p.(world := world, steps := p.steps + [Step(command, "", error)], status := Stopped)
    case Crashed => p.(world := world, status := Dying)
  }

  predicate Landed(cfg: Config, fleet: Fleet, action: ChangeAction) {
    var expected := ParseCommand(cfg.parse, action.command);
    expected.Some? && Holds(ReadDevice(fleet, action.device, cfg.parse), expected.value)
  }

  function StatusAfter(reading: Reading): Status {
    match reading
    case Shows => Going
    case Fails => Escaping
    case Dies => Dying
  }

  const SKIPPED := "skipped: rule already present on device"

  /** Looking for the rule takes a read, which a command that does not parse is spared. */
  function Looked(cfg: Config, p: Progress, action: ChangeAction): Progress {
    if !cfg.skipLanded || ParseCommand(cfg.parse, action.command).None? then p
    else
      var (world, reading) := ReadOnce(p.world);
      p.(world := world, status := StatusAfter(reading))
  }

  function PushedOne(cfg: Config, p: Progress, action: ChangeAction): Progress
    requires p.status == Going
  {
    var q, command := Looked(cfg, p, action), Render(action.command, action.position);
    if q.status != Going then q
    else if cfg.skipLanded && Landed(cfg, q.world.net.fleet, action)
    then q.(steps := q.steps + [Step(command, SKIPPED, "")])
    else Sent(q, action.device, command)
  }

  /** The first n actions, in order, until a send or a read fails. */
  function Pushed(cfg: Config, w: World, actions: seq<ChangeAction>, n: nat): Progress
    requires n <= |actions|
  {
    if n == 0 then Progress(w, [], [], Going)
    else
      var p := Pushed(cfg, w, actions, n - 1);
      if p.status != Going then p else PushedOne(cfg, p, actions[n - 1])
  }

  function PulledOne(p: Progress, action: ChangeAction): Progress {
    if action.rollback == Blank then p
    else
      var command := Render(action.rollback, action.position);
      Sent(p.(lines := [ReversalSent(command)]), action.device, command)
  }

  /** The reversals of the last n actions, last action first, until a send fails. */
  function Pulled(start: Progress, actions: seq<ChangeAction>, n: nat): Progress
    requires n <= |actions|
  {
    if n == 0 then start
    else
      var p := Pulled(start, actions, n - 1);
      if p.status != Going then p else PulledOne(p, actions[|actions| - n])
  }

  function Ended(world: World, state: State, lines: seq<Line>, steps: seq<Step>,
                 verification: seq<LiveFinding>): Outcome {
    Outcome(world, Returned(ExecutionResult("device", state, lines, steps, verification)))
  }

  /** What a read that shows no policy ends the call with. */
  function Interrupted(reading: Reading): Ending {
    if reading == Fails then Escaped else Died
  }

  function Reverted(cfg: Config, w: World, steps: seq<Step>, verification: seq<LiveFinding>, cause: Cause,
                    actions: seq<ChangeAction>, flows: seq<Flow>): Outcome {
    if !cfg.autoRollback then Ended(w, RollbackFailed, [LeftAsItIs(cause)], steps, verification)
    else
      var p := Pulled(Progress(w, steps, [RollingBack(cause)], Going), actions, |actions|);
      if p.status == Stopped then Ended(p.world, RollbackFailed, p.lines + [ReversalFailed], p.steps, verification)
      else if p.status != Going then Outcome(p.world, Died)
      else
        var (world, reading) := ReadTimes(p.world, |actions|);
        if reading != Shows then Outcome(world, Interrupted(reading))
        else
          var findings := Findings(world.net.fleet, actions, flows, cfg.parse, |actions|, false);
          if Clean(findings)
          then Ended(world, RolledBack, p.lines + [BackInPreviousState], p.steps, verification + findings)
          else Ended(world, RollbackFailed, p.lines + [DidNotReturn], p.steps, verification + findings)
  }

  function AppliedBody(cfg: Config, w: World, actions: seq<ChangeAction>, flows: seq<Flow>): Outcome {
    var p := Pushed(cfg, w, actions, |actions|);
    match p.status
    case Dying => Outcome(p.world, Died)
    case Escaping => Outcome(p.world, Escaped)
    case Stopped => Reverted(cfg, p.world, p.steps, [], SendingFailed, actions, flows)
    case Going =>
      var (world, reading) := ReadTimes(p.world, |actions|);
      if reading != Shows then Outcome(world, Interrupted(reading))
      else
        var findings := Findings(world.net.fleet, actions, flows, cfg.parse, |actions|, true);
        if Clean(findings) then Ended(world, Applied, [Confirmed], p.steps, findings)
        else Reverted(cfg, world, p.steps, findings, VerificationFailed, actions, flows)
  }

  function SessionsClosed(w: World): World {
    World(w.net.(closings := w.net.closings + w.sessions), [])
  }

  function AppliedTo(cfg: Config, w: World, actions: seq<ChangeAction>, flows: seq<Flow>): Outcome {
    var reasons := Reasons(actions, flows, cfg.allowed, cfg.parse, |actions|);
    if reasons != [] then Ended(w, Refused, [RefusedToExecute(reasons)], [], [])
    else
      var o := AppliedBody(cfg, w.(sessions := []), actions, flows);
      if o.ending.Died? then o else Outcome(SessionsClosed(o.world), o.ending)
  }

  class DeviceExecutor {
    const cfg: Config
    var net: Network
    var sessions: seq<string>

    constructor (cfg: Config, net: Network)
      ensures this.cfg == cfg && Now() == World(net, [])
    {
      this.cfg, this.net, this.sessions := cfg, net, [];
    }

    function Now(): World
      reads this
    {
      World(net, sessions)
    }

    /** `_session(device).send_config(lines)` */
    method SendConfig(device: string, command: Command) returns (delivery: Delivery)
      modifies this
      ensures (Now(), delivery) == Send(old(Now()), device, command)
    {
      if net.script == [] {
        return Crashed;
      }
      var reaction := net.script[0];
      net := net.(script := net.script[1..]);
      if device !in sessions {
        if !reaction.connects {
          return Failed(reaction.text);
        }
        sessions := sessions + [device];
        net := net.(openings := net.openings + [device]);
      }
      net := net.(sent := net.sent + [(device, command)], fleet := After(net.fleet, device, command, reaction.effect));
      delivery := if reaction.raises then Failed(reaction.text) else Delivered(reaction.text);
    }

    /** `firewall.refresh` and the policy that follows, which may raise. */
    method ReadPolicy() returns (reading: Reading)
      modifies this
      ensures (Now(), reading) == ReadOnce(old(Now()))
    {
      if net.readings == [] {
        return Shows;
      }
      reading := net.readings[0];
      net := net.(readings := net.readings[1..]);
    }

    method Push(actions: seq<ChangeAction>) returns (steps: seq<Step>, status: Status)
      modifies this
      ensures Progress(Now(), steps, [], status) == Pushed(cfg, old(Now()), actions, |actions|)
    {
      hide Holds, ReadDevice, After;
      steps, status := [], Going;
      for n := 0 to |actions|
        invariant Progress(Now(), steps, [], status) == Pushed(cfg, old(Now()), actions, n)
      {
        if status == Going {
          var step;
          step, status := PushOne(actions[n]);
          steps := steps + step;
        }
      }
    }

    /** One action: at most one read, and at most one send. */
    method PushOne(action: ChangeAction) returns (step: seq<Step>, status: Status)
      modifies this
      ensures forall steps {:trigger Progress(old(Now()), steps, [], Going)} ::
                Progress(Now(), steps + step, [], status)
                  == PushedOne(cfg, Progress(old(Now()), steps, [], Going), action)
    {
      hide Holds, ReadDevice, After;
      var command := Render(action.command, action.position);
      step, status := [], Going;
      if cfg.skipLanded && ParseCommand(cfg.parse, action.command).Some? {
        var reading := ReadPolicy();
        if reading != Shows {
          status := StatusAfter(reading);
          assert forall steps: seq<Step> :: steps + step == steps;
          return;
        }
        if Landed(cfg, net.fleet, action) {
          step := [Step(command, SKIPPED, "")];
          return;
        }
      }
      ghost var looked := Now();
      assert !(cfg.skipLanded && Landed(cfg, looked.net.fleet, action));
      step, status := SendStep(action.device, command);
      forall steps {:trigger Progress(old(Now()), steps, [], Going)}
        ensures Progress(Now(), steps + step, [], status)
                == PushedOne(cfg, Progress(old(Now()), steps, [], Going), action)
      {
        assert Looked(cfg, Progress(old(Now()), steps, [], Going), action) == Progress(looked, steps, [], Going);
        assert Progress(Now(), steps + step, [], status)
               == Sent(Progress(looked, steps, [], Going), action.device, command);
      }
    }

    /** One send and the step it leaves in the record. */
    method SendStep(device: string, command: Command) returns (step: seq<Step>, status: Status)
      modifies this
      ensures forall steps, lines {:trigger Progress(old(Now()), steps, lines, Going)} ::
                Progress(Now(), steps + step, lines, status)
                  == Sent(Progress(old(Now()), steps, lines, Going), device, command)
    {
      hide After;
      var delivery := SendConfig(device, command);
      match delivery
      case Delivered(output) => step, status := [Step(command, output, "")], Going;
      case Failed(error) => step, status := [Step(command, "", error)], Stopped;
      case Crashed =>
        step, status := [], Dying;
        assert forall steps: seq<Step> :: steps + step == steps;
    }

    /** Every action's device is read in turn, until a read shows nothing. */
    method ReadAll(n: nat) returns (reading: Reading)
      modifies this
      ensures (Now(), reading) == ReadTimes(old(Now()), n)
    {
      reading := Shows;
      for i := 0 to n
        invariant (Now(), reading) == ReadTimes(old(Now()), i)
      {
        if reading == Shows {
          reading := ReadPolicy();
        }
      }
    }

    /** The reversals, last action first, until a send fails. */
    method Pull(actions: seq<ChangeAction>, before: seq<Step>, cause: Cause)
      returns (steps: seq<Step>, lines: seq<Line>, status: Status)
      modifies this
      ensures Progress(Now(), steps, lines, status) ==
                Pulled(Progress(old(Now()), before, [RollingBack(cause)], Going), actions, |actions|)
    {
      hide After;
      steps, lines, status := before, [RollingBack(cause)], Going;
      for n := 0 to |actions|
        invariant Progress(Now(), steps, lines, status) ==
                    Pulled(Progress(old(Now()), before, [RollingBack(cause)], Going), actions, n)
      {
        var action := actions[|actions| - 1 - n];
        if status == Going && action.rollback != Blank {
          var command := Render(action.rollback, action.position);
          lines := [ReversalSent(command)];
          var step;
          step, status := SendStep(action.device, command);
          steps := steps + step;
        }
      }
    }

    method Revert(actions: seq<ChangeAction>, flows: seq<Flow>, before: seq<Step>, verification: seq<LiveFinding>,
                  cause: Cause)
      returns (ending: Ending)
      modifies this
      ensures Outcome(Now(), ending) == Reverted(cfg, old(Now()), before, verification, cause, actions, flows)
    {
      hide Pulled, Findings, Clean;
      if !cfg.autoRollback {
        return Returned(ExecutionResult("device", RollbackFailed, [LeftAsItIs(cause)], before, verification));
      }
      var steps, lines, status := Pull(actions, before, cause);
      if status == Stopped {
        return Returned(ExecutionResult("device", RollbackFailed, lines + [ReversalFailed], steps, verification));
      }
      if status != Going {
        return Died;
      }
      var reading := ReadAll(|actions|);
      if reading != Shows {
        return Interrupted(reading);
      }
      var ok, findings := ReadBack(net.fleet, actions, flows, cfg.parse, false);
      if ok {
        return Returned(ExecutionResult("device", RolledBack, lines + [BackInPreviousState], steps,
                                        verification + findings));
      }
      ending := Returned(ExecutionResult("device", RollbackFailed, lines + [DidNotReturn], steps,
                                         verification + findings));
    }

    method ApplyBody(actions: seq<ChangeAction>, flows: seq<Flow>) returns (ending: Ending)
      modifies this
      ensures Outcome(Now(), ending) == AppliedBody(cfg, old(Now()), actions, flows)
    {
      hide Pushed, Reverted, Findings, Clean;
      var steps, status := Push(actions);
      if status == Dying {
        return Died;
      }
      if status == Escaping {
        return Escaped;
      }
      if status == Stopped {
        ending := Revert(actions, flows, steps, [], SendingFailed);
        return;
      }
      var reading := ReadAll(|actions|);
      if reading != Shows {
        return Interrupted(reading);
      }
      var ok, findings := ReadBack(net.fleet, actions, flows, cfg.parse, true);
      if ok {
        return Returned(ExecutionResult("device", Applied, [Confirmed], steps, findings));
      }
      ending := Revert(actions, flows, steps, findings, VerificationFailed);
    }

    method Apply(actions: seq<ChangeAction>, flows: seq<Flow>) returns (ending: Ending)
      modifies this
      ensures Outcome(Now(), ending) == AppliedTo(cfg, old(Now()), actions, flows)
    {
      var reasons := Check(actions, flows, cfg.allowed, cfg.parse);
      if reasons != [] {
        return Returned(ExecutionResult("device", Refused, [RefusedToExecute(reasons)], [], []));
      }
      sessions := [];
      ending := ApplyBody(actions, flows);
      if !ending.Died? {
        net := net.(closings := net.closings + sessions);
        sessions := [];
      }
    }
  }

  // ---------------------------------------------------------------------
  // One result per operation key
  // ---------------------------------------------------------------------

  /** The stored form, where every entry may be missing. */
  datatype StoredStep = StoredStep(command: Option<Command>, output: Option<string>, error: Option<string>)

  datatype StoredResult = StoredResult(
    mode: Option<string>, state: Option<State>, lines: Option<seq<Line>>,
    steps: Option<seq<StoredStep>>, verification: Option<seq<LiveFinding>>)

  function StepsAsDict(steps: seq<Step>): seq<StoredStep> {
    if steps == [] then []
    else [StoredStep(Some(steps[0].command), Some(steps[0].output), Some(steps[0].error))] + StepsAsDict(steps[1..])
  }

  function AsDict(r: ExecutionResult): StoredResult {
    StoredResult(Some(r.mode), Some(r.state), Some(r.lines), Some(StepsAsDict(r.steps)), Some(r.verification))
  }

  function ReplayedSteps(steps: seq<StoredStep>): seq<Step> {
    if steps == [] then []
    else
      [Step(steps[0].command.GetOr(Blank), steps[0].output.GetOr(""), steps[0].error.GetOr(""))] +
      ReplayedSteps(steps[1..])
  }

  function Replayed(cached: StoredResult): ExecutionResult {
    ExecutionResult(cached.mode.GetOr("device"), cached.state.GetOr(Applied), cached.lines.GetOr([]),
                    ReplayedSteps(cached.steps.GetOr([])), cached.verification.GetOr([]))
  }

  type Store = map<string, StoredResult>

  /** One call: `survives` says whether the process lives long enough to store its result. */
  function AppliedOnce(cfg: Config, w: World, store: Store, key: string, actions: seq<ChangeAction>, flows: seq<Flow>,
                       survives: bool): (Outcome, Store) {
    if key != "" && key in store then (Outcome(w, Returned(Replayed(store[key]))), store)
    else
      var o := AppliedTo(cfg, w, actions, flows);
      if !survives then (Outcome(o.world, Died), store)
      else if key != "" && o.ending.Returned? && o.ending.result.state != Refused
      then (o, store[key := AsDict(o.ending.result)])
      else (o, store)
  }

  class IdempotentDeviceExecutor {
    const base: DeviceExecutor
    var operationKey: string
    var store: Store

    constructor (base: DeviceExecutor, store: Store)
      ensures this.base == base && this.store == store
    {
      this.base, this.store, this.operationKey := base, store, "";
    }

    method ApplyOnce(actions: seq<ChangeAction>, flows: seq<Flow>, key: string, survives: bool)
      returns (ending: Ending)
      modifies this, base
      ensures (Outcome(base.Now(), ending), store) ==
                AppliedOnce(base.cfg, old(base.Now()), old(store), key, actions, flows, survives)
    {
      operationKey := key;
      if key != "" && key in store {
        return Returned(Replayed(store[key]));
      }
      ending := base.Apply(actions, flows);
      if !survives {
        return Died;
      }
      if key != "" && ending.Returned? && ending.result.state != Refused && key !in store {
        store := store[key := AsDict(ending.result)];
      }
    }
  }
}
