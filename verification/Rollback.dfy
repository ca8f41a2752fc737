/**
 Reversal in reverse order restores a fleet of devices
 (apps/api/app/execute/device.py:84-103 and 147-169, infra/fakeasa/server.py:69-103).
 */
module Rollback {
  import opened Wrappers
  import opened DevicePolicy

  type Fleet = map<string, seq<DeviceRule>>

  /** One rule to be added to one access list of one device. */
  datatype Change = Change(device: string, acl: string, line: Option<int>, body: string)

  function AddOn(fleet: Fleet, c: Change): Fleet {
    if c.device in fleet then fleet[c.device := Added(fleet[c.device], c.acl, c.line, c.body)] else fleet
  }

  function RemoveOn(fleet: Fleet, c: Change): Fleet {
    if c.device in fleet then fleet[c.device := Removed(fleet[c.device], c.acl, c.body)] else fleet
  }

  predicate PresentOn(fleet: Fleet, c: Change) {
    c.device in fleet && Present(fleet[c.device], c.acl, c.body)
  }

  /** The additions in order; `took[i]` says whether addition i had its effect. */
  function PushAll(fleet: Fleet, cs: seq<Change>, took: seq<bool>): Fleet
    requires |took| == |cs|
  {
    if cs == [] then fleet
    else
      var n := |cs| - 1;
      var before := PushAll(fleet, cs[..n], took[..n]);
      if took[n] then AddOn(before, cs[n]) else before
  }

  /** The removals, last change first. */
  function UndoAll(fleet: Fleet, cs: seq<Change>): Fleet {
    if cs == [] then fleet
    else UndoAll(RemoveOn(fleet, cs[|cs| - 1]), cs[..|cs| - 1])
  }

  ghost predicate SingleOn(fleet: Fleet, c: Change) {
    c.device in fleet ==> Single(fleet[c.device], c.acl, c.body)
  }

  ghost predicate AllSingle(fleet: Fleet, cs: seq<Change>) {
    forall i | 0 <= i < |cs| :: SingleOn(fleet, cs[i])
  }

  predicate SameTarget(c: Change, d: Change) {
    c.device == d.device && SameName(c.acl, c.body, d.acl, d.body)
  }

  lemma RemovalsCommuteOn(fleet: Fleet, c: Change, d: Change)
    requires SingleOn(fleet, c) && SingleOn(fleet, d)
    ensures RemoveOn(RemoveOn(fleet, c), d) == RemoveOn(RemoveOn(fleet, d), c)
  {
    if c.device in fleet && d.device in fleet && c.device == d.device {
      RemovalsCommute(fleet[c.device], c.acl, c.body, d.acl, d.body);
    }
  }

  lemma RemovalKeepsSingleOn(fleet: Fleet, c: Change, d: Change)
    requires SingleOn(fleet, c) && SingleOn(fleet, d)
    ensures SingleOn(RemoveOn(fleet, c), d)
  {
    if c.device in fleet && c.device == d.device {
      RemovalKeepsSingle(fleet[c.device], c.acl, c.body, d.acl, d.body);
    }
  }

  lemma RemovingTwice(fleet: Fleet, c: Change, d: Change)
    requires SingleOn(fleet, c) && SingleOn(fleet, d) && SameTarget(c, d)
    ensures RemoveOn(RemoveOn(fleet, c), d) == RemoveOn(fleet, d)
  {
    if c.device in fleet {
      var rules := fleet[c.device];
      SameNameSameRemoval(rules, c.acl, c.body, d.body);
      RemovedIsOneDrop(rules, d.acl, d.body);
      assert Removed(Removed(rules, d.acl, d.body), d.acl, d.body) == Removed(rules, d.acl, d.body);
    }
  }

  /** A removal the reversal is going to make anyway may as well come first. */
  lemma {:induction false} EarlyRemovalIsAbsorbed(fleet: Fleet, c: Change, cs: seq<Change>)
    requires AllSingle(fleet, cs) && SingleOn(fleet, c)
    requires exists i :: 0 <= i < |cs| && SameTarget(c, cs[i])
    ensures UndoAll(RemoveOn(fleet, c), cs) == UndoAll(fleet, cs)
    decreases |cs|
  {
    var n := |cs| - 1;
    var last, front := cs[n], cs[..n];
    if SameTarget(c, last) {
      RemovingTwice(fleet, c, last);
    } else {
      var i :| 0 <= i < |cs| && SameTarget(c, cs[i]);
      assert front[i] == cs[i];
      RemovalsCommuteOn(fleet, c, last);
      RemovalKeepsSingleOn(fleet, last, c);
      forall k | 0 <= k < n ensures SingleOn(RemoveOn(fleet, last), front[k]) {
        assert front[k] == cs[k];
        RemovalKeepsSingleOn(fleet, last, cs[k]);
      }
      EarlyRemovalIsAbsorbed(RemoveOn(fleet, last), c, front);
    }
  }

  lemma {:induction false} PushingKeepsSingle(fleet: Fleet, cs: seq<Change>, took: seq<bool>, c: Change)
    requires |took| == |cs| && !PresentOn(fleet, c)
    ensures SingleOn(PushAll(fleet, cs, took), c)
    ensures PresentOn(PushAll(fleet, cs, took), c) ==> exists i :: 0 <= i < |cs| && SameTarget(c, cs[i])
    ensures PushAll(fleet, cs, took).Keys == fleet.Keys
  {
    if cs == [] {
      if c.device in fleet {
        assert FindNamed(fleet[c.device], c.acl, c.body).None?;
      }
    } else {
      var n := |cs| - 1;
      var before := PushAll(fleet, cs[..n], took[..n]);
      PushingKeepsSingle(fleet, cs[..n], took[..n], c);
      if PresentOn(before, c) {
        var i :| 0 <= i < n && SameTarget(c, cs[..n][i]);
        assert SameTarget(c, cs[i]);
      }
      if took[n] && c.device in fleet && cs[n].device == c.device {
        AddingKeepsSingle(before[c.device], cs[n].acl, cs[n].line, cs[n].body, c.acl, c.body);
        assert SameName(c.acl, c.body, cs[n].acl, cs[n].body) ==> SameTarget(c, cs[n]);
      }
    }
  }

  lemma AddingKeepsSingle(rules: seq<DeviceRule>, acl: string, line: Option<int>, body: string, acl': string,
                          body': string)
    requires Single(rules, acl', body')
    ensures Single(Added(rules, acl, line, body), acl', body')
    ensures Present(Added(rules, acl, line, body), acl', body') ==>
              Present(rules, acl', body') || SameName(acl', body', acl, body)
  {
    var added := Added(rules, acl, line, body);
    if !Present(rules, acl, body) {
      assert forall k | 0 <= k < |rules| :: Names(added[k], acl', body') == Names(rules[k], acl', body');
      assert Names(added[|rules|], acl', body') == SameName(acl', body', acl, body);
      forall i, j | 0 <= i < |added| && 0 <= j < |added| && Names(added[i], acl', body') && Names(added[j], acl', body')
        ensures i == j
      {
        if SameName(acl', body', acl, body) {
          SameNameSameFind(rules, acl, body, body');
        }
      }
    }
  }

  /**
   Whatever additions had their effect, and whether or not two of them name the same
   rule, the reversal brings back every rule and every line number, provided no
   change names a rule that was there before.
   */
  lemma {:induction false} RollbackRestores(fleet: Fleet, cs: seq<Change>, took: seq<bool>)
    requires |took| == |cs|
    requires forall i | 0 <= i < |cs| :: !PresentOn(fleet, cs[i])
    ensures UndoAll(PushAll(fleet, cs, took), cs) == fleet
    decreases |cs|
  {
    if cs != [] {
      var n := |cs| - 1;
      var c, front := cs[n], cs[..n];
      var before := PushAll(fleet, front, took[..n]);
      RollbackRestores(fleet, front, took[..n]);
      PushingKeepsSingle(fleet, front, took[..n], c);
      if PresentOn(before, c) {
        forall k | 0 <= k < n ensures SingleOn(before, front[k]) {
          assert front[k] == cs[k];
          PushingKeepsSingle(fleet, front, took[..n], cs[k]);
        }
        EarlyRemovalIsAbsorbed(before, c, front);
        assert AddOn(before, c) == before;
      } else if c.device in before {
        RemoveUndoesAdd(before[c.device], c.acl, c.line, c.body);
        assert RemoveOn(before, c) == before;
        assert RemoveOn(AddOn(before, c), c) == before;
      }
    }
  }

  lemma RemovalIsComplete(rules: seq<DeviceRule>, acl: string, body: string)
    ensures !Present(Removed(rules, acl, body), acl, body)
    decreases |rules|
  {
    var f := FindNamed(rules, acl, body);
    if f.Some? {
      RemovalIsComplete(DropAt(rules, f.value), acl, body);
    }
  }

  lemma {:induction false} RemovalAddsNothing(rules: seq<DeviceRule>, acl: string, body: string, acl': string,
                                              body': string)
    ensures Present(Removed(rules, acl, body), acl', body') ==> Present(rules, acl', body')
    decreases |rules|
  {
    var f := FindNamed(rules, acl, body);
    if f.Some? {
      DropKeepsNames(rules, f.value, acl', body');
      RemovalAddsNothing(DropAt(rules, f.value), acl, body, acl', body');
    }
  }

  lemma {:induction false} UndoneIsGone(fleet: Fleet, cs: seq<Change>, c: Change)
    ensures (exists i :: 0 <= i < |cs| && cs[i] == c) ==> !PresentOn(UndoAll(fleet, cs), c)
    ensures !PresentOn(fleet, c) ==> !PresentOn(UndoAll(fleet, cs), c)
    decreases |cs|
  {
    if cs != [] {
      var n := |cs| - 1;
      var next := RemoveOn(fleet, cs[n]);
      UndoneIsGone(next, cs[..n], c);
      if cs[n].device in fleet {
        RemovalIsComplete(fleet[cs[n].device], cs[n].acl, cs[n].body);
        RemovalAddsNothing(fleet[cs[n].device], cs[n].acl, cs[n].body, c.acl, c.body);
      }
      if exists i :: 0 <= i < |cs| && cs[i] == c {
        var i :| 0 <= i < |cs| && cs[i] == c;
        if i < n {
          assert cs[..n][i] == c;
        }
      }
    }
  }

  /**
   The condition is exact: a change whose body was already there was accepted as a
   duplicate, and its reversal takes the earlier rule away.
   */
  lemma RollbackRestoresExactlyWhen(fleet: Fleet, cs: seq<Change>, took: seq<bool>)
    requires |took| == |cs|
    ensures UndoAll(PushAll(fleet, cs, took), cs) == fleet <==>
              forall i | 0 <= i < |cs| :: !PresentOn(fleet, cs[i])
  {
    if forall i | 0 <= i < |cs| :: !PresentOn(fleet, cs[i]) {
      RollbackRestores(fleet, cs, took);
    } else {
      var i :| 0 <= i < |cs| && PresentOn(fleet, cs[i]);
      UndoneIsGone(PushAll(fleet, cs, took), cs, cs[i]);
    }
  }
}
