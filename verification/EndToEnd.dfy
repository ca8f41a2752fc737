/**
 From the simulator's verdict to the executor's terminal state: exactly when the change
 a human approved is the change the device ends up enforcing.
 */
module EndToEnd {
  import opened Wrappers
  import opened Text
  import opened AclPolicy
  import opened DevicePolicy
  import opened Rollback
  import opened Live
  import opened Execution
  import Simulator
  import Refinement
  import TerminalStates
  import opened ExecutedRollback

  function ReadingOf(parse: Parser): Refinement.Reading {
    text => parse(text).GetOr(UNMODELLED)
  }

  lemma {:induction false} OneListIsWhole(rules: seq<DeviceRule>, acl: string)
    requires forall i | 0 <= i < |rules| :: rules[i].acl == acl
    ensures InAcl(rules, acl) == rules
  {
    if rules != [] {
      OneListIsWhole(rules[..|rules| - 1], acl);
    }
  }

  lemma AddingKeepsOneList(rules: seq<DeviceRule>, acl: string, line: Option<int>, text: string)
    requires forall i | 0 <= i < |rules| :: rules[i].acl == acl
    ensures forall i | 0 <= i < |Added(rules, acl, line, text)| :: Added(rules, acl, line, text)[i].acl == acl
  {
  }

  ghost predicate OneList(fleet: Fleet, device: string, acl: string) {
    device in fleet && forall i | 0 <= i < |fleet[device]| :: fleet[device][i].acl == acl
  }

  lemma ReadingIsOne(fleet: Fleet, device: string, parse: Parser, acl: string)
    requires device in fleet && forall i | 0 <= i < |fleet[device]| :: fleet[device][i].acl == acl
    ensures ReadDevice(fleet, device, parse) == Refinement.Read(InAcl(fleet[device], acl), ReadingOf(parse))
  {
    OneListIsWhole(fleet[device], acl);
  }

  /** The action as it is sent, and as the simulator was given it. */
  ghost predicate SameChange(action: ChangeAction, command: Simulator.Command, acl: string, text: string,
                             parse: Parser) {
    && action.command == Acl(false, acl, command.line, text)
    && parse(text) == Some(command.body)
    && (Refinement.WireLine(command, action.position).Some? ==>
        Refinement.WireLine(command, action.position).value >= 0)
  }

  /** The new rule is on the device after the addition. */
  lemma AddedIsHeld(fleet: Fleet, device: string, acl: string, line: Option<int>, text: string, parse: Parser,
                    body: Body)
    requires device in fleet && !Present(fleet[device], acl, text) && parse(text) == Some(body)
    ensures Holds(ReadDevice(AddOn(fleet, Change(device, acl, line, text)), device, parse), body)
  {
    var after := AddOn(fleet, Change(device, acl, line, text));
    var policy, n := ReadDevice(after, device, parse), |fleet[device]|;
    assert after[device][n].body == text;
    SameRuleIsEquivalence(body, body, body);
    assert SameRule(policy[n].body, body);
  }

  /** A flow the simulation permits is permitted on the device after the addition exactly when the
      addition takes effect there or the flow was permitted before. */
  lemma PermittedOnTheDevice(fleet: Fleet, device: string, acl: string, text: string, command: Simulator.Command,
                             position: Option<int>, parse: Parser, flow: Flow)
    requires OneList(fleet, device, acl) && parse(text) == Some(command.body) && command.body.action == Permit
    requires var base := ReadDevice(fleet, device, parse);
             EvaluateFlow(base + [Simulator.Spliced(command, position, base)], flow).action == Permit
    ensures var after := AddOn(fleet, Change(device, acl, Refinement.WireLine(command, position), text));
            EvaluateFlow(ReadDevice(after, device, parse), flow).action == Permit <==>
              !Present(fleet[device], acl, text)
                || EvaluateFlow(ReadDevice(fleet, device, parse), flow).action == Permit
  {
    hide EvaluateFlow, Added, Present;
    var line := Refinement.WireLine(command, position);
    var after := AddOn(fleet, Change(device, acl, line, text));
    AddingKeepsOneList(fleet[device], acl, line, text);
    ReadingIsOne(fleet, device, parse, acl);
    ReadingIsOne(after, device, parse, acl);
    Refinement.SimulationRefinesDevice(fleet[device], acl, text, command, position, ReadingOf(parse), flow);
    Refinement.DeviceVerdict(fleet[device], acl, text, command, position, ReadingOf(parse), flow);
  }

  // ---------------------------------------------------------------------
  // Additions after the first
  // ---------------------------------------------------------------------

  /** Adding a permit never turns a permitted flow into a denied one, wherever it lands. */
  lemma PermitKeepsPermitted(fleet: Fleet, device: string, acl: string, line: Option<int>, text: string,
                             parse: Parser, flow: Flow)
    requires OneList(fleet, device, acl) && parse(text).Some? && parse(text).value.action == Permit
    requires EvaluateFlow(ReadDevice(fleet, device, parse), flow).action == Permit
    ensures EvaluateFlow(ReadDevice(AddOn(fleet, Change(device, acl, line, text)), device, parse), flow).action
            == Permit
  {
    hide EvaluateFlow, Present;
    if !Present(fleet[device], acl, text) {
      var after := AddOn(fleet, Change(device, acl, line, text));
      AddingKeepsOneList(fleet[device], acl, line, text);
      ReadingIsOne(fleet, device, parse, acl);
      ReadingIsOne(after, device, parse, acl);
      var command := Simulator.Command(None, parse(text).value);
      hide Added;
      Refinement.DeviceVerdict(fleet[device], acl, text, command, line, ReadingOf(parse), flow);
    }
  }

  /** An addition leaves every rule the device holds, if on another line. */
  lemma AdditionKeepsHeld(fleet: Fleet, device: string, c: Change, parse: Parser, body: Body)
    requires Holds(ReadDevice(fleet, device, parse), body)
    ensures Holds(ReadDevice(AddOn(fleet, c), device, parse), body)
  {
    var policy, after := ReadDevice(fleet, device, parse), ReadDevice(AddOn(fleet, c), device, parse);
    var i :| 0 <= i < |policy| && SameRule(policy[i].body, body);
    assert after[i].body == policy[i].body;
  }

  /** Whoever reads a rule body pays no regard to case, as the device does not. */
  ghost predicate CaseBlind(parse: Parser) {
    forall s, t | Lower(s) == Lower(t) :: parse(s) == parse(t)
  }

  /** A body the device already has, in whatever spelling, is held. */
  lemma PresentIsHeld(fleet: Fleet, device: string, acl: string, text: string, parse: Parser)
    requires CaseBlind(parse) && device in fleet && Present(fleet[device], acl, text) && parse(text).Some?
    ensures Holds(ReadDevice(fleet, device, parse), parse(text).value)
  {
    var i := FindNamed(fleet[device], acl, text).value;
    var policy, body := ReadDevice(fleet, device, parse), parse(text).value;
    SameRuleIsEquivalence(body, body, body);
    assert SameRule(policy[i].body, body);
  }

  // ---------------------------------------------------------------------
  // A whole change
  // ---------------------------------------------------------------------

  /** What the simulator was given for an action. */
  datatype Approved = Approved(command: Simulator.Command, text: string)

  function ProposalOf(action: ChangeAction, approved: Approved): Simulator.Proposal {
    Simulator.Proposal(action.device, Some(approved.command), action.position)
  }

  function Proposals(actions: seq<ChangeAction>, approved: seq<Approved>): seq<Simulator.Proposal>
    requires |actions| == |approved|
  {
    seq(|actions|, i requires 0 <= i < |actions| => ProposalOf(actions[i], approved[i]))
  }

  /** One permit for a device with a single list, simulated against the policy read from it. */
  ghost predicate ProposedPermit(cfg: Config, fleet: Fleet, fw: Simulator.Firewall, acls: map<string, string>,
                                 action: ChangeAction, approved: Approved) {
    && action.device in acls && OneList(fleet, action.device, acls[action.device])
    && SameChange(action, approved.command, acls[action.device], approved.text, cfg.parse)
    && approved.command.body.action == Permit
    && fw.Policy(action.device) == ReadDevice(fleet, action.device, cfg.parse)
  }

  ghost predicate AllPermitted(fleet: Fleet, device: string, flows: seq<Flow>, parse: Parser) {
    forall f | f in flows :: EvaluateFlow(ReadDevice(fleet, device, parse), f).action == Permit
  }

  ghost predicate Held(fleet: Fleet, action: ChangeAction, parse: Parser) {
    && ParseCommand(parse, action.command).Some?
    && Holds(ReadDevice(fleet, action.device, parse), ParseCommand(parse, action.command).value)
  }

  /** The addition changes the device it is sent to: it is sent at all, and the body is new there. */
  predicate TakesEffect(cfg: Config, fleet: Fleet, acls: map<string, string>, action: ChangeAction,
                        approved: Approved) {
    action.device in fleet && action.device in acls &&
    if cfg.skipLanded then !Landed(cfg, fleet, action)
    else !Present(fleet[action.device], acls[action.device], approved.text)
  }

  function ChangeFor(action: ChangeAction, approved: Approved, acl: string): Change {
    Change(action.device, acl, Refinement.WireLine(approved.command, action.position), approved.text)
  }

  /** The devices after one action that goes through. */
  function Next(cfg: Config, fleet: Fleet, action: ChangeAction, approved: Approved, acl: string): Fleet {
    if cfg.skipLanded && Landed(cfg, fleet, action) then fleet else AddOn(fleet, ChangeFor(action, approved, acl))
  }

  /** What the step leaves on the action's own device: its rule, its one list, and every permission there was. */
  lemma NextHolds(cfg: Config, fleet: Fleet, acls: map<string, string>, action: ChangeAction, approved: Approved,
                  flows: seq<Flow>)
    requires CaseBlind(cfg.parse) && action.device in acls && OneList(fleet, action.device, acls[action.device])
    requires SameChange(action, approved.command, acls[action.device], approved.text, cfg.parse)
    requires approved.command.body.action == Permit
    ensures var after := Next(cfg, fleet, action, approved, acls[action.device]);
            && Held(after, action, cfg.parse) && OneList(after, action.device, acls[action.device])
            && (AllPermitted(fleet, action.device, flows, cfg.parse)
                ==> AllPermitted(after, action.device, flows, cfg.parse))
  {
    hide EvaluateFlow, Present, Added, Holds, ReadDevice;
    var acl, c := acls[action.device], ChangeFor(action, approved, acls[action.device]);
    AddingKeepsOneList(fleet[action.device], acl, c.line, approved.text);
    if Present(fleet[action.device], acl, approved.text) {
      PresentIsHeld(fleet, action.device, acl, approved.text, cfg.parse);
      AdditionKeepsHeld(fleet, action.device, c, cfg.parse, approved.command.body);
    } else {
      AddedIsHeld(fleet, action.device, acl, c.line, approved.text, cfg.parse, approved.command.body);
    }
    forall f | f in flows && EvaluateFlow(ReadDevice(fleet, action.device, cfg.parse), f).action == Permit
      ensures EvaluateFlow(ReadDevice(AddOn(fleet, c), action.device, cfg.parse), f).action == Permit
    {
      PermitKeepsPermitted(fleet, action.device, acl, c.line, approved.text, cfg.parse, f);
    }
  }

  /** On a device as it was simulated, the step permits all the evidence if it takes effect, and
      changes nothing otherwise. */
  lemma FirstStep(cfg: Config, fleet: Fleet, acls: map<string, string>, action: ChangeAction, approved: Approved,
                  flows: seq<Flow>)
    requires CaseBlind(cfg.parse) && action.device in acls && OneList(fleet, action.device, acls[action.device])
    requires SameChange(action, approved.command, acls[action.device], approved.text, cfg.parse)
    requires approved.command.body.action == Permit
    requires var base := ReadDevice(fleet, action.device, cfg.parse);
             forall f | f in flows ::
               EvaluateFlow(base + [Simulator.Spliced(approved.command, action.position, base)], f).action == Permit
    ensures var after := Next(cfg, fleet, action, approved, acls[action.device]);
            if TakesEffect(cfg, fleet, acls, action, approved) then AllPermitted(after, action.device, flows, cfg.parse)
            else after == fleet
  {
    hide EvaluateFlow, Present, Holds, ReadDevice;
    var acl := acls[action.device];
    if Present(fleet[action.device], acl, approved.text) {
      PresentIsHeld(fleet, action.device, acl, approved.text, cfg.parse);
    } else {
      forall f | f in flows
        ensures EvaluateFlow(ReadDevice(AddOn(fleet, ChangeFor(action, approved, acl)), action.device, cfg.parse),
                             f).action == Permit
      {
        PermittedOnTheDevice(fleet, action.device, acl, approved.text, approved.command, action.position, cfg.parse, f);
      }
    }
  }

  /** The rules held anywhere stay held. */
  lemma NextKeepsHeld(cfg: Config, fleet: Fleet, acl: string, action: ChangeAction, approved: Approved,
                      other: ChangeAction)
    requires Held(fleet, other, cfg.parse)
    ensures Held(Next(cfg, fleet, action, approved, acl), other, cfg.parse)
  {
    hide Holds, Landed;
    AdditionKeepsHeld(fleet, other.device, ChangeFor(action, approved, acl), cfg.parse,
                      ParseCommand(cfg.parse, other.command).value);
  }

  // ---------------------------------------------------------------------
  // Induction over the pushes
  // ---------------------------------------------------------------------

  /** One of the first n actions was bound to take effect on this device. */
  ghost predicate Woken(cfg: Config, origin: Fleet, acls: map<string, string>, actions: seq<ChangeAction>,
                        approved: seq<Approved>, n: nat, device: string)
    requires n <= |actions| == |approved|
  {
    exists j :: 0 <= j < n && actions[j].device == device && TakesEffect(cfg, origin, acls, actions[j], approved[j])
  }

  ghost predicate SameAt(before: Fleet, after: Fleet, device: string) {
    device in before && device in after && before[device] == after[device]
  }

  /** A device is as it was, or one of the actions took effect and all the evidence is permitted there. */
  ghost predicate Accounted(cfg: Config, origin: Fleet, fleet: Fleet, acls: map<string, string>,
                            actions: seq<ChangeAction>,
                            approved: seq<Approved>, flows: seq<Flow>, n: nat, device: string)
    requires n <= |actions| == |approved|
  {
    if Woken(cfg, origin, acls, actions, approved, n, device) then AllPermitted(fleet, device, flows, cfg.parse)
    else SameAt(origin, fleet, device)
  }

  /** After n actions, their rules are held and every device is accounted for. */
  ghost predicate FleetSoFar(cfg: Config, origin: Fleet, fleet: Fleet, acls: map<string, string>,
                             actions: seq<ChangeAction>,
                             approved: seq<Approved>, flows: seq<Flow>, n: nat)
    requires n <= |actions| == |approved|
  {
    && (forall i | 0 <= i < |actions| ::
          && actions[i].device in acls && OneList(fleet, actions[i].device, acls[actions[i].device])
          && Accounted(cfg, origin, fleet, acls, actions, approved, flows, n, actions[i].device))
    && (forall i | 0 <= i < n :: Held(fleet, actions[i], cfg.parse))
  }

  /** And nothing has failed, or is going to. */
  ghost predicate SoFar(cfg: Config, origin: Fleet, p: Progress, acls: map<string, string>, actions: seq<ChangeAction>,
                        approved: seq<Approved>, flows: seq<Flow>, n: nat)
    requires n <= |actions| == |approved|
  {
    && p.status == Going
    && AllShown(p.world.net.readings) && Cooperates(p.world.net.script, |actions| - n)
    && FleetSoFar(cfg, origin, p.world.net.fleet, acls, actions, approved, flows, n)
  }

  /** One action is skipped because its rule is there, or its addition is carried out. */
  lemma OneActionSent(cfg: Config, p: Progress, action: ChangeAction, approved: Approved, acl: string, left: nat)
    requires p.status == Going && AllShown(p.world.net.readings) && Cooperates(p.world.net.script, left + 1)
    requires action.device in p.world.net.fleet && SameChange(action, approved.command, acl, approved.text, cfg.parse)
    ensures var q, fleet := PushedOne(cfg, p, action), p.world.net.fleet;
            && q.status == Going && AllShown(q.world.net.readings) && Cooperates(q.world.net.script, left)
            && q.world.net.fleet == Next(cfg, fleet, action, approved, acl)
  {
    hide Landed, Added, Removed;
  }

  /** The action's own device stays accounted for. */
  lemma OwnDevice(cfg: Config, origin: Fleet, fw: Simulator.Firewall, fleet: Fleet, acls: map<string, string>,
                  actions: seq<ChangeAction>, approved: seq<Approved>, flows: seq<Flow>, n: nat)
    requires n < |actions| == |approved| && CaseBlind(cfg.parse)
    requires ProposedPermit(cfg, origin, fw, acls, actions[n], approved[n])
    requires Simulator.Acceptable(fw, ProposalOf(actions[n], approved[n]), flows)
    requires OneList(fleet, actions[n].device, acls[actions[n].device])
    requires Accounted(cfg, origin, fleet, acls, actions, approved, flows, n, actions[n].device)
    ensures var after := Next(cfg, fleet, actions[n], approved[n], acls[actions[n].device]);
            && Held(after, actions[n], cfg.parse) && OneList(after, actions[n].device, acls[actions[n].device])
            && Accounted(cfg, origin, after, acls, actions, approved, flows, n + 1, actions[n].device)
  {
    var action, device := actions[n], actions[n].device;
    NextHolds(cfg, fleet, acls, action, approved[n], flows);
    WokenLater(cfg, origin, acls, actions, approved, n, device);
    if !Woken(cfg, origin, acls, actions, approved, n, device) {
      assert ReadDevice(fleet, device, cfg.parse) == ReadDevice(origin, device, cfg.parse);
      FirstStep(cfg, fleet, acls, action, approved[n], flows);
      assert TakesEffect(cfg, fleet, acls, action, approved[n]) == TakesEffect(cfg, origin, acls, action, approved[n]);
    }
    hide EvaluateFlow, Next, Held, TakesEffect, OneList, AllPermitted, SameChange, Woken;
  }

  lemma WokenLater(cfg: Config, origin: Fleet, acls: map<string, string>, actions: seq<ChangeAction>,
                   approved: seq<Approved>, n: nat, device: string)
    requires n < |actions| == |approved|
    ensures Woken(cfg, origin, acls, actions, approved, n + 1, device) <==>
              || Woken(cfg, origin, acls, actions, approved, n, device)
              || (actions[n].device == device && TakesEffect(cfg, origin, acls, actions[n], approved[n]))
  {
    hide TakesEffect;
  }

  /** Every other device too: the step does not touch it. */
  lemma OtherDevice(cfg: Config, origin: Fleet, fleet: Fleet, acls: map<string, string>, actions: seq<ChangeAction>,
                    approved: seq<Approved>, flows: seq<Flow>, n: nat, device: string)
    requires n < |actions| == |approved| && actions[n].device != device
    requires device in acls && OneList(fleet, device, acls[device]) && actions[n].device in acls
    requires Accounted(cfg, origin, fleet, acls, actions, approved, flows, n, device)
    ensures var after := Next(cfg, fleet, actions[n], approved[n], acls[actions[n].device]);
            && OneList(after, device, acls[device])
            && Accounted(cfg, origin, after, acls, actions, approved, flows, n + 1, device)
  {
    hide Landed, Added, TakesEffect, EvaluateFlow;
    var after := Next(cfg, fleet, actions[n], approved[n], acls[actions[n].device]);
    WokenLater(cfg, origin, acls, actions, approved, n, device);
    assert SameAt(fleet, after, device);
    assert ReadDevice(after, device, cfg.parse) == ReadDevice(fleet, device, cfg.parse);
    hide Woken, ReadDevice;
  }

  lemma FleetMovesOn(cfg: Config, origin: Fleet, fw: Simulator.Firewall, fleet: Fleet, acls: map<string, string>,
                     actions: seq<ChangeAction>, approved: seq<Approved>, flows: seq<Flow>, n: nat)
    requires n < |actions| == |approved| && CaseBlind(cfg.parse)
    requires ProposedPermit(cfg, origin, fw, acls, actions[n], approved[n])
    requires Simulator.Acceptable(fw, ProposalOf(actions[n], approved[n]), flows)
    requires FleetSoFar(cfg, origin, fleet, acls, actions, approved, flows, n)
    ensures FleetSoFar(cfg, origin, Next(cfg, fleet, actions[n], approved[n], acls[actions[n].device]), acls, actions,
                       approved, flows, n + 1)
  {
    hide Accounted, Held, Next, OneList, ProposedPermit, Simulator.Acceptable, CaseBlind;
    var acl := acls[actions[n].device];
    OwnDevice(cfg, origin, fw, fleet, acls, actions, approved, flows, n);
    forall i | 0 <= i < |actions|
      ensures OneList(Next(cfg, fleet, actions[n], approved[n], acl), actions[i].device, acls[actions[i].device])
      ensures Accounted(cfg, origin, Next(cfg, fleet, actions[n], approved[n], acl), acls, actions, approved, flows,
                        n + 1,
                        actions[i].device)
    {
      if actions[i].device != actions[n].device {
        OtherDevice(cfg, origin, fleet, acls, actions, approved, flows, n, actions[i].device);
      }
    }
    forall i | 0 <= i < n ensures Held(Next(cfg, fleet, actions[n], approved[n], acl), actions[i], cfg.parse) {
      NextKeepsHeld(cfg, fleet, acl, actions[n], approved[n], actions[i]);
    }
  }

  lemma OneMoreAction(cfg: Config, w: World, fw: Simulator.Firewall, acls: map<string, string>,
                      actions: seq<ChangeAction>, approved: seq<Approved>, flows: seq<Flow>, n: nat, p: Progress)
    requires n < |actions| == |approved| && CaseBlind(cfg.parse) && p.status == Going
    requires ProposedPermit(cfg, w.net.fleet, fw, acls, actions[n], approved[n])
    requires Simulator.Acceptable(fw, ProposalOf(actions[n], approved[n]), flows)
    requires SoFar(cfg, w.net.fleet, p, acls, actions, approved, flows, n)
    ensures PushedOne(cfg, p, actions[n]).status == Going
    ensures SoFar(cfg, w.net.fleet, PushedOne(cfg, p, actions[n]), acls, actions, approved, flows, n + 1)
  {
    var fleet, acl := p.world.net.fleet, acls[actions[n].device];
    assert OneList(fleet, actions[n].device, acl);
    FleetMovesOn(cfg, w.net.fleet, fw, fleet, acls, actions, approved, flows, n);
    OneActionSent(cfg, p, actions[n], approved[n], acl, |actions| - n - 1);
    hide Next, PushedOne, FleetSoFar, Cooperates, AllShown, OneList, SameChange, Simulator.Acceptable;
  }

  lemma NothingSentYet(cfg: Config, w: World, fw: Simulator.Firewall, acls: map<string, string>,
                       actions: seq<ChangeAction>, approved: seq<Approved>, flows: seq<Flow>)
    requires |actions| == |approved| && AllShown(w.net.readings) && Cooperates(w.net.script, |actions|)
    requires forall i | 0 <= i < |actions| :: ProposedPermit(cfg, w.net.fleet, fw, acls, actions[i], approved[i])
    ensures SoFar(cfg, w.net.fleet, Progress(w, [], [], Going), acls, actions, approved, flows, 0)
  {
    hide SameChange, ReadDevice, Cooperates, AllShown;
    assert forall i | 0 <= i < |actions| :: OneList(w.net.fleet, actions[i].device, acls[actions[i].device]);
  }

  lemma {:induction false} EveryDeviceAccounted(cfg: Config, w: World, fw: Simulator.Firewall, acls: map<string,
                                                string>,
                                                actions: seq<ChangeAction>, approved: seq<Approved>, flows: seq<Flow>,
                                                n: nat)
    requires n <= |actions| == |approved| && CaseBlind(cfg.parse)
    requires AllShown(w.net.readings) && Cooperates(w.net.script, |actions|)
    requires forall i | 0 <= i < |actions| :: ProposedPermit(cfg, w.net.fleet, fw, acls, actions[i], approved[i])
    requires forall i | 0 <= i < |actions| :: Simulator.Acceptable(fw, ProposalOf(actions[i], approved[i]), flows)
    ensures SoFar(cfg, w.net.fleet, Pushed(cfg, w, actions, n), acls, actions, approved, flows, n)
    ensures Pushed(cfg, w, actions, n).status == Going
  {
    hide PushedOne, Simulator.Acceptable, ProposedPermit, SoFar, CaseBlind;
    if n == 0 {
      NothingSentYet(cfg, w, fw, acls, actions, approved, flows);
    } else {
      EveryDeviceAccounted(cfg, w, fw, acls, actions, approved, flows, n - 1);
      OneMoreAction(cfg, w, fw, acls, actions, approved, flows, n - 1, Pushed(cfg, w, actions, n - 1));
    }
  }

  /** With every device accounted for, the rules are in force exactly where they took effect or were not needed. */
  lemma InForceWhereEffective(cfg: Config, origin: Fleet, fleet: Fleet, acls: map<string, string>,
                              actions: seq<ChangeAction>, approved: seq<Approved>, flows: seq<Flow>)
    requires |actions| == |approved| && FleetSoFar(cfg, origin, fleet, acls, actions, approved, flows, |actions|)
    ensures InForce(fleet, actions, flows, cfg.parse) <==>
              forall i | 0 <= i < |actions| ::
                || AllPermitted(origin, actions[i].device, flows, cfg.parse)
                || Woken(cfg, origin, acls, actions, approved, |actions|, actions[i].device)
  {
    hide EvaluateFlow, Holds, Stands, Woken;
    forall i | 0 <= i < |actions|
      ensures ParseCommand(cfg.parse, actions[i].command).Some?
      ensures Stands(ReadDevice(fleet, actions[i].device, cfg.parse), ParseCommand(cfg.parse, actions[i].command).value)
      ensures AllPermitted(fleet, actions[i].device, flows, cfg.parse) <==>
                || AllPermitted(origin, actions[i].device, flows, cfg.parse)
                || Woken(cfg, origin, acls, actions, approved, |actions|, actions[i].device)
    {
      assert Accounted(cfg, origin, fleet, acls, actions, approved, flows, |actions|, actions[i].device);
      assert Held(fleet, actions[i], cfg.parse);
      HoldsIsStanding(ReadDevice(fleet, actions[i].device, cfg.parse),
                      ParseCommand(cfg.parse, actions[i].command).value);
      if SameAt(origin, fleet, actions[i].device) {
        assert ReadDevice(fleet, actions[i].device, cfg.parse) == ReadDevice(origin, actions[i].device, cfg.parse);
      }
    }
    hide OneList, Accounted, ReadDevice;
  }

  /**
   Permits the simulator accepted against the policies just read, sent to devices that
   obey, are reported APPLIED exactly when on each device some action takes effect or the
   evidence was permitted already: however many share a device, and although each was
   simulated without the others.
   */
  lemma AcceptedChangeIsAppliedExactlyWhen(cfg: Config, w: World, fw: Simulator.Firewall, acls: map<string, string>,
                                           actions: seq<ChangeAction>, approved: seq<Approved>, flows: seq<Flow>)
    requires GuardOk(actions, flows, cfg.allowed, cfg.parse) && |approved| == |actions| && CaseBlind(cfg.parse)
    requires forall i | 0 <= i < |actions| :: ProposedPermit(cfg, w.net.fleet, fw, acls, actions[i], approved[i])
    requires Simulator.Verified(fw, Proposals(actions, approved), flows).ok
    requires AllShown(w.net.readings) && Cooperates(w.net.script, |actions|)
    ensures var o := AppliedTo(cfg, w, actions, flows);
            (o.ending.Returned? && o.ending.result.state == Applied) <==>
              forall i | 0 <= i < |actions| ::
                || AllPermitted(w.net.fleet, actions[i].device, flows, cfg.parse)
                || Woken(cfg, w.net.fleet, acls, actions, approved, |actions|, actions[i].device)
  {
    hide Simulator.Verified, Simulator.Acceptable, AppliedTo, GuardOk, Cooperates, Pushed, ProposedPermit, FleetSoFar,
         CaseBlind;
    var start := w.(sessions := []);
    Simulator.AcceptedExactlyWhenSound(fw, Proposals(actions, approved), flows);
    forall i | 0 <= i < |actions| ensures Simulator.Acceptable(fw, ProposalOf(actions[i], approved[i]), flows) {
      assert Proposals(actions, approved)[i] == ProposalOf(actions[i], approved[i]);
    }
    EveryDeviceAccounted(cfg, start, fw, acls, actions, approved, flows, |actions|);
    var p := Pushed(cfg, start, actions, |actions|);
    InForceWhereEffective(cfg, w.net.fleet, p.world.net.fleet, acls, actions, approved, flows);
    ReadsShow(p.world, |actions|);
    TerminalStates.AppliedExactlyWhen(cfg, w, actions, flows);
    hide InForce, AllPermitted, Woken;
  }

  /**
   The condition is needed.  The simulator accepts a permit the device already holds below
   a deny, the guard passes and the device obeys every send; the executor reports
   ROLLED_BACK, and the earlier permit is gone.
   */
  lemma AcceptedYetRolledBack(cfg: Config, w: World)
    requires cfg == Config({"fw"}, true, false, Reads)
    requires w.net.fleet == Fw(HELD) && w.net.readings == [] && w.net.script == [OBEYS, OBEYS]
    ensures var fw := Simulator.Firewall(map["fw" := ReadDevice(w.net.fleet, "fw", cfg.parse)], {});
            Simulator.Verified(fw, [ProposalOf(ADDING, Approved(Simulator.Command(None, PAIR), "permit"))],
                               [REACHABLE]).ok
    ensures var o := AppliedTo(cfg, w, [ADDING], [REACHABLE]);
            o.ending.Returned? && o.ending.result.state == RolledBack && o.world.net.fleet == Fw(HELD[..1])
  {
    hide AppliedTo, Simulator.Verified, ReadDevice;
    RolledBackYetChanged(cfg, w);
    HeldReads();
    HeldPermitIsAccepted(ReadDevice(w.net.fleet, "fw", cfg.parse));
  }

  lemma HeldPermitIsAccepted(base: seq<AclRule>)
    requires base == [AclRule(10, NOBODY, "A"), AclRule(20, PAIR, "A")]
    ensures var fw := Simulator.Firewall(map["fw" := base], {});
            Simulator.Verified(fw, [Simulator.Proposal("fw", Some(Simulator.Command(None, PAIR)), Some(5))],
                               [REACHABLE]).ok
  {
    var fw := Simulator.Firewall(map["fw" := base], {});
    var proposal := Simulator.Proposal("fw", Some(Simulator.Command(None, PAIR)), Some(5));
    var rule := Simulator.Spliced(proposal.command.value, proposal.position, base);
    Refinement.PairMatches();
    SplicingOneRule(base, rule, REACHABLE);
    PairIsNarrow();
    hide EvaluateFlow, Matches, Simulator.Verified, Simulator.NarrowEnough;
    Simulator.AcceptedExactlyWhenSound(fw, [proposal], [REACHABLE]);
    assert Simulator.Acceptable(fw, proposal, [REACHABLE]);
  }

  lemma PairIsNarrow()
    ensures Simulator.NarrowEnough(PAIR, [REACHABLE])
  {
    assert Simulator.Sources([REACHABLE]) == {V4(0)} && Simulator.Destinations([REACHABLE]) == {V4(1)};
    assert BlockSize(32) == 1;
  }
}
