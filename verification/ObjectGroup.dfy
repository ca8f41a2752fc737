/**
 Flattening object-groups over a possibly cyclic reference graph
 (apps/api/app/firewall/objectgroup.py, `_expand`).
 */
module ObjectGroup {
  import opened Wrappers
  import opened Text
  import opened Sequences
  import opened AclPolicy

  datatype Kind = GroupKind | ObjectKind

  /** The key an expansion is remembered under; names are case-folded. */
  datatype Key = Key(kind: Kind, name: string)

  datatype Entry = Entry(
    kind: string, networks: seq<Spec>, ports: seq<int>, protocols: seq<string>,
    members: seq<string>, objectRefs: seq<string>, complete: bool)

  datatype Registries = Registries(groups: map<string, Entry>, objects: map<string, Entry>)

  datatype Expansion = Expansion(networks: seq<Spec>, ports: seq<int>, protocols: seq<string>, complete: bool)

  const INCOMPLETE := Expansion([], [], [], false)
  const NOTHING := Expansion([], [], [], true)

  function Lookup(g: Registries, key: Key): Option<Entry> {
    var registry := if key.kind == GroupKind then g.groups else g.objects;
    if key.name in registry then Some(registry[key.name]) else None
  }

  function Defined(g: Registries): set<Key> {
    (set name | name in g.groups :: Key(GroupKind, name)) + (set name | name in g.objects :: Key(ObjectKind, name))
  }

  function KeyOf(kind: Kind, name: string): Key {
    Key(kind, Lower(name))
  }

  /** What an entry refers to, in the order it is expanded: member groups, then named objects. */
  function Refs(entry: Entry): seq<Key> {
    KeysOf(GroupKind, entry.members) + KeysOf(ObjectKind, entry.objectRefs)
  }

  function KeysOf(kind: Kind, names: seq<string>): (keys: seq<Key>)
    ensures |keys| == |names|
  {
    seq(|names|, i requires 0 <= i < |names| => KeyOf(kind, names[i]))
  }

  function Own(entry: Entry): Expansion {
    Expansion(entry.networks, entry.ports, entry.protocols, entry.complete)
  }

  function Extended(a: Expansion, b: Expansion): Expansion {
    Expansion(a.networks + b.networks, a.ports + b.ports, a.protocols + b.protocols, a.complete && b.complete)
  }

  /** The expansion of one key, and the keys seen afterwards. */
  function Expanded(g: Registries, key: Key, seen: set<Key>): (r: (Expansion, set<Key>))
    ensures seen <= r.1
    decreases Defined(g) - seen, 0
  {
    if key in seen then (INCOMPLETE, seen)
    else if Lookup(g, key).None? then (INCOMPLETE, seen + {key})
    else
      var entry := Lookup(g, key).value;
      assert key in Defined(g);
      var (rest, after) := ExpandedAll(g, Refs(entry), seen + {key});
      (Extended(Own(entry), rest), after)
  }

  function ExpandedAll(g: Registries, keys: seq<Key>, seen: set<Key>): (r: (Expansion, set<Key>))
    ensures seen <= r.1
    decreases Defined(g) - seen, |keys| + 1
  {
    if keys == [] then (NOTHING, seen)
    else
      var (first, mid) := Expanded(g, keys[0], seen);
      assert Defined(g) - mid <= Defined(g) - seen;
      var (rest, after) := ExpandedAll(g, keys[1..], mid);
      (Extended(first, rest), after)
  }

  /** The set shared by all calls of one expansion. */
  class Seen {
    var keys: set<Key>

    constructor ()
      ensures keys == {}
    {
      keys := {};
    }
  }

  method Expand(g: Registries, key: Key, seen: Seen) returns (result: Expansion)
    modifies seen
    ensures (result, seen.keys) == Expanded(g, key, old(seen.keys))
    decreases Defined(g) - seen.keys, 0
  {
    ghost var seen0 := seen.keys;
    if key in seen.keys {
      return INCOMPLETE;
    }
    seen.keys := seen.keys + {key};
    var found := Lookup(g, key);
    if found.None? {
      return INCOMPLETE;
    }
    var entry := found.value;
    assert key in Defined(g);
    result := ExpandEach(g, GroupKind, entry.members, Own(entry), seen);
    result := ExpandEach(g, ObjectKind, entry.objectRefs, result, seen);
    ExpandedInTwo(g, entry, seen0 + {key});
  }

  /** One of the two loops: each named entry in turn, appended to what is there. */
  method ExpandEach(g: Registries, kind: Kind, names: seq<string>, start: Expansion, seen: Seen)
      returns (result: Expansion)
    modifies seen
    ensures var (rest, after) := ExpandedAll(g, KeysOf(kind, names), old(seen.keys));
            result == Extended(start, rest) && seen.keys == after
    decreases Defined(g) - seen.keys, 1
  {
    result := start;
    ghost var keys := KeysOf(kind, names);
    ghost var (rest, after) := ExpandedAll(g, keys, seen.keys);
    ghost var seen0 := seen.keys;
    for i := 0 to |names|
      invariant seen0 <= seen.keys
      invariant ExpandedAll(g, keys[i..], seen.keys).1 == after
      invariant Extended(result, ExpandedAll(g, keys[i..], seen.keys).0) == Extended(start, rest)
    {
      ghost var (first, mid) := Expanded(g, keys[i], seen.keys);
      assert keys[i..][1..] == keys[i + 1..];
      ExtendTwice(result, first, ExpandedAll(g, keys[i + 1..], mid).0);
      var nested := Expand(g, KeyOf(kind, names[i]), seen);
      result := Extended(result, nested);
    }
    ExtendNothing(result);
  }

  lemma {:induction false} ExpandedInSequence(g: Registries, a: seq<Key>, b: seq<Key>, seen: set<Key>)
    ensures var (first, mid) := ExpandedAll(g, a, seen);
            var (second, after) := ExpandedAll(g, b, mid);
            ExpandedAll(g, a + b, seen) == (Extended(first, second), after)
    decreases |a|
  {
    if a == [] {
      assert a + b == b;
      ExtendNothing(ExpandedAll(g, b, seen).0);
    } else {
      var (head, next) := Expanded(g, a[0], seen);
      assert (a + b)[1..] == a[1..] + b;
      ExpandedInSequence(g, a[1..], b, next);
      var (tail, mid) := ExpandedAll(g, a[1..], next);
      ExtendTwice(head, tail, ExpandedAll(g, b, mid).0);
    }
  }

  lemma ExpandedInTwo(g: Registries, entry: Entry, seen: set<Key>)
    ensures var (groups, mid) := ExpandedAll(g, KeysOf(GroupKind, entry.members), seen);
            var (objects, after) := ExpandedAll(g, KeysOf(ObjectKind, entry.objectRefs), mid);
            var (rest, end) := ExpandedAll(g, Refs(entry), seen);
            end == after && Extended(Own(entry), rest) == Extended(Extended(Own(entry), groups), objects)
  {
    ExpandedInSequence(g, KeysOf(GroupKind, entry.members), KeysOf(ObjectKind, entry.objectRefs), seen);
    var (groups, mid) := ExpandedAll(g, KeysOf(GroupKind, entry.members), seen);
    ExtendTwice(Own(entry), groups, ExpandedAll(g, KeysOf(ObjectKind, entry.objectRefs), mid).0);
  }

  lemma ExtendTwice(a: Expansion, b: Expansion, c: Expansion)
    ensures Extended(Extended(a, b), c) == Extended(a, Extended(b, c))
  {
    assert (a.networks + b.networks) + c.networks == a.networks + (b.networks + c.networks);
    assert (a.ports + b.ports) + c.ports == a.ports + (b.ports + c.ports);
    assert (a.protocols + b.protocols) + c.protocols == a.protocols + (b.protocols + c.protocols);
  }

  lemma ExtendNothing(a: Expansion)
    ensures Extended(a, NOTHING) == a && Extended(NOTHING, a) == a
  {
  }

  function ExpandGroup(name: string, g: Registries): Expansion {
    Expanded(g, KeyOf(GroupKind, name), {}).0
  }

  function ExpandObject(name: string, g: Registries): Expansion {
    Expanded(g.(groups := map[]), KeyOf(ObjectKind, name), {}).0
  }

  // ---------------------------------------------------------------------
  // The reference graph unfolded into a tree
  // ---------------------------------------------------------------------

  datatype Tree = Node(key: Key, children: seq<Tree>)

  function Roots(ts: seq<Tree>): (keys: seq<Key>)
    ensures |keys| == |ts|
  {
    seq(|ts|, i requires 0 <= i < |ts| => ts[i].key)
  }

  /** Every key of the tree is defined, and its children are its references in order. */
  ghost predicate Unfolds(g: Registries, t: Tree)
    decreases t, 1
  {
    && Lookup(g, t.key).Some?
    && Roots(t.children) == Refs(Lookup(g, t.key).value)
    && AllUnfold(g, t.children)
  }

  ghost predicate AllUnfold(g: Registries, ts: seq<Tree>)
    decreases ts, 0
  {
    ts == [] || (Unfolds(g, ts[0]) && AllUnfold(g, ts[1..]))
  }

  function Preorder(t: Tree): (keys: seq<Key>)
    ensures t.key in keys
    decreases t, 1
  {
    [t.key] + PreorderAll(t.children)
  }

  function PreorderAll(ts: seq<Tree>): seq<Key>
    decreases ts, 0
  {
    if ts == [] then [] else Preorder(ts[0]) + PreorderAll(ts[1..])
  }

  ghost predicate Distinct(keys: seq<Key>) {
    forall i, j | 0 <= i < j < |keys| :: keys[i] != keys[j]
  }

  ghost predicate AllComplete(g: Registries, keys: seq<Key>) {
    forall k | k in keys :: Lookup(g, k).Some? && Lookup(g, k).value.complete
  }

  /** The own entries of the keys, in order. */
  function Gathered(g: Registries, keys: seq<Key>): Expansion
  {
    if keys == [] then NOTHING
    else
      var first := Lookup(g, keys[0]);
      Extended(if first.Some? then Own(first.value) else INCOMPLETE, Gathered(g, keys[1..]))
  }

  function Keys(keys: seq<Key>): set<Key> {
    set k | k in keys
  }

  /** The tree's keys are all new, each met once, and all complete. */
  ghost predicate Clean(g: Registries, keys: seq<Key>, seen: set<Key>) {
    Distinct(keys) && AllComplete(g, keys) && Keys(keys) !! seen
  }

  lemma {:induction false} GatheredConcat(g: Registries, a: seq<Key>, b: seq<Key>)
    ensures Gathered(g, a + b) == Extended(Gathered(g, a), Gathered(g, b))
  {
    if a == [] {
      assert a + b == b;
      ExtendNothing(Gathered(g, b));
    } else {
      assert (a + b)[1..] == a[1..] + b;
      GatheredConcat(g, a[1..], b);
      var first := Lookup(g, a[0]);
      ExtendTwice(if first.Some? then Own(first.value) else INCOMPLETE, Gathered(g, a[1..]), Gathered(g, b));
    }
  }

  lemma KeysConcat(a: seq<Key>, b: seq<Key>)
    ensures Keys(a + b) == Keys(a) + Keys(b)
  {
  }

  lemma CleanSplits(g: Registries, a: seq<Key>, b: seq<Key>, seen: set<Key>)
    ensures Clean(g, a + b, seen) <==> Clean(g, a, seen) && Clean(g, b, seen + Keys(a))
  {
    var all := a + b;
    assert forall i | 0 <= i < |a| :: all[i] == a[i];
    assert forall i | 0 <= i < |b| :: all[|a| + i] == b[i];
    if Clean(g, all, seen) {
      forall i, j | 0 <= i < j < |b| ensures b[i] != b[j] {
        assert all[|a| + i] != all[|a| + j];
      }
      forall k | k in b ensures k !in Keys(a) && k in all {
        var j :| 0 <= j < |b| && b[j] == k;
        assert all[|a| + j] == k;
      }
    }
    if Clean(g, a, seen) && Clean(g, b, seen + Keys(a)) {
      forall i, j | 0 <= i < j < |all| ensures all[i] != all[j] {
        if i < |a| <= j {
          assert all[i] in Keys(a) && all[j] in Keys(b);
        }
      }
    }
  }

  // ---------------------------------------------------------------------
  // Complete exactly for trees without repetition
  // ---------------------------------------------------------------------

  /** A complete expansion walked a tree of new, distinct, complete keys. */
  lemma {:induction false} CompleteWalkedATree(g: Registries, key: Key, seen: set<Key>) returns (t: Tree)
    requires Expanded(g, key, seen).0.complete
    ensures t.key == key && Unfolds(g, t) && Clean(g, Preorder(t), seen)
    decreases Defined(g) - seen, 0
  {
    var entry := Lookup(g, key).value;
    assert key in Defined(g);
    var children := CompleteWalkedTrees(g, Refs(entry), seen + {key});
    t := Node(key, children);
    assert Keys([key]) == {key};
    CleanSplits(g, [key], PreorderAll(children), seen);
  }

  lemma NothingIsClean(g: Registries, seen: set<Key>)
    ensures Clean(g, [], seen) && seen + Keys([]) == seen
  {
  }

  lemma {:induction false} CompleteWalkedTrees(g: Registries, keys: seq<Key>, seen: set<Key>) returns (ts: seq<Tree>)
    requires ExpandedAll(g, keys, seen).0.complete
    ensures Roots(ts) == keys && AllUnfold(g, ts) && Clean(g, PreorderAll(ts), seen)
    ensures ExpandedAll(g, keys, seen).1 == seen + Keys(PreorderAll(ts))
    decreases Defined(g) - seen, |keys| + 1
  {
    hide Clean, Unfolds, Preorder, Expanded, Lookup;
    if keys == [] {
      ts := [];
      NothingIsClean(g, seen);
    } else {
      var (first, mid) := Expanded(g, keys[0], seen);
      assert Defined(g) - mid <= Defined(g) - seen;
      var t := CompleteWalkedATree(g, keys[0], seen);
      TreeIsExpanded(g, t, seen);
      var rest := CompleteWalkedTrees(g, keys[1..], mid);
      ts := [t] + rest;
      assert ts[1..] == rest;
      CleanSplits(g, Preorder(t), PreorderAll(rest), seen);
    }
  }

  /** Over such a tree the expansion gathers every key's own entries in pre-order. */
  lemma {:induction false} TreeIsExpanded(g: Registries, t: Tree, seen: set<Key>)
    requires Unfolds(g, t) && Clean(g, Preorder(t), seen)
    ensures Expanded(g, t.key, seen) == (Gathered(g, Preorder(t)), seen + Keys(Preorder(t)))
    ensures Gathered(g, Preorder(t)).complete
    decreases t, 1
  {
    CleanSplits(g, [t.key], PreorderAll(t.children), seen);
    assert Keys([t.key]) == {t.key} && [t.key][0] == t.key;
    TreesAreExpanded(g, t.children, seen + {t.key});
    assert Preorder(t)[1..] == PreorderAll(t.children);
    KeysConcat([t.key], PreorderAll(t.children));
    assert seen + {t.key} + Keys(PreorderAll(t.children)) == seen + Keys(Preorder(t));
  }

  lemma {:induction false} TreesAreExpanded(g: Registries, ts: seq<Tree>, seen: set<Key>)
    requires AllUnfold(g, ts) && Clean(g, PreorderAll(ts), seen)
    ensures ExpandedAll(g, Roots(ts), seen) == (Gathered(g, PreorderAll(ts)), seen + Keys(PreorderAll(ts)))
    ensures Gathered(g, PreorderAll(ts)).complete
    decreases ts, 0
  {
    hide Clean, Unfolds, Preorder, Expanded, Lookup;
    if ts != [] {
      CleanSplits(g, Preorder(ts[0]), PreorderAll(ts[1..]), seen);
      TreeIsExpanded(g, ts[0], seen);
      TreesAreExpanded(g, ts[1..], seen + Keys(Preorder(ts[0])));
      assert Roots(ts)[1..] == Roots(ts[1..]);
      GatheredConcat(g, Preorder(ts[0]), PreorderAll(ts[1..]));
      KeysConcat(Preorder(ts[0]), PreorderAll(ts[1..]));
      assert seen + Keys(Preorder(ts[0])) + Keys(PreorderAll(ts[1..])) == seen + Keys(PreorderAll(ts));
    } else {
      assert seen + Keys(PreorderAll(ts)) == seen;
    }
  }

  /**
   Expansion is complete exactly when the references of the key unfold into a tree in
   which every key is defined, complete and met once: no unknown name, no cycle, no
   group reached twice.  Then it lists the entries of that tree in pre-order.
   */
  lemma CompleteExactlyWhen(g: Registries, key: Key)
    ensures var r := Expanded(g, key, {}).0;
            && (r.complete <==> exists t: Tree :: t.key == key && Unfolds(g, t) && Clean(g, Preorder(t), {}))
            && (forall t: Tree | t.key == key && Unfolds(g, t) && Clean(g, Preorder(t), {}) ::
                r == Gathered(g, Preorder(t)))
  {
    if Expanded(g, key, {}).0.complete {
      var t := CompleteWalkedATree(g, key, {});
    }
    forall t: Tree | t.key == key && Unfolds(g, t) && Clean(g, Preorder(t), {})
      ensures Expanded(g, key, {}).0 == Gathered(g, Preorder(t)) && Gathered(g, Preorder(t)).complete
    {
      TreeIsExpanded(g, t, {});
    }
  }

  // ---------------------------------------------------------------------
  // The tree is what the key reaches
  // ---------------------------------------------------------------------

  /** The entry a key stands for: groups and objects are registered apart. */
  ghost predicate IsEntry(g: Registries, k: Key, e: Entry) {
    || (k.kind == GroupKind && k.name in g.groups && g.groups[k.name] == e)
    || (k.kind == ObjectKind && k.name in g.objects && g.objects[k.name] == e)
  }

  lemma LookupFinds(g: Registries, k: Key, e: Entry)
    ensures Lookup(g, k) == Some(e) <==> IsEntry(g, k, e)
  {
  }

  /** An entry names its member groups and its objects, in any case. */
  ghost predicate NamesKey(e: Entry, r: Key) {
    || (r.kind == GroupKind && exists name :: name in e.members && r.name == Lower(name))
    || (r.kind == ObjectKind && exists name :: name in e.objectRefs && r.name == Lower(name))
  }

  /** The references are the names of the entry, member groups first. */
  lemma RefsAreNames(e: Entry, r: Key)
    ensures r in Refs(e) <==> NamesKey(e, r)
    ensures |Refs(e)| == |e.members| + |e.objectRefs|
    ensures forall i | 0 <= i < |e.members| :: Refs(e)[i] == Key(GroupKind, Lower(e.members[i]))
    ensures forall i | 0 <= i < |e.objectRefs| :: Refs(e)[|e.members| + i] == Key(ObjectKind, Lower(e.objectRefs[i]))
  {
    var groups, objects := KeysOf(GroupKind, e.members), KeysOf(ObjectKind, e.objectRefs);
    if r in Refs(e) {
      var i :| 0 <= i < |Refs(e)| && Refs(e)[i] == r;
      if i < |groups| {
        assert groups[i] == r && e.members[i] in e.members;
      } else {
        assert objects[i - |groups|] == r && e.objectRefs[i - |groups|] in e.objectRefs;
      }
    }
    if NamesKey(e, r) {
      if r.kind == GroupKind {
        var i :| 0 <= i < |e.members| && r.name == Lower(e.members[i]);
        assert groups[i] == r && r in groups;
      } else {
        var i :| 0 <= i < |e.objectRefs| && r.name == Lower(e.objectRefs[i]);
        assert objects[i] == r && r in objects;
      }
    }
  }

  /** Closed under following references. */
  ghost predicate Closed(g: Registries, keys: set<Key>) {
    forall k, e, r | k in keys && IsEntry(g, k, e) && NamesKey(e, r) :: r in keys
  }

  lemma {:induction false} TreeStaysInside(g: Registries, t: Tree, keys: set<Key>)
    requires Unfolds(g, t) && Closed(g, keys) && t.key in keys
    ensures Keys(Preorder(t)) <= keys
    decreases t, 1
  {
    var e := Lookup(g, t.key).value;
    LookupFinds(g, t.key, e);
    forall i | 0 <= i < |t.children| ensures t.children[i].key in keys {
      assert Roots(t.children)[i] in Refs(e);
      RefsAreNames(e, t.children[i].key);
    }
    TreesStayInside(g, t.children, keys);
  }

  lemma {:induction false} TreesStayInside(g: Registries, ts: seq<Tree>, keys: set<Key>)
    requires AllUnfold(g, ts) && Closed(g, keys) && forall i | 0 <= i < |ts| :: ts[i].key in keys
    ensures Keys(PreorderAll(ts)) <= keys
    decreases ts, 0
  {
    if ts != [] {
      TreeStaysInside(g, ts[0], keys);
      TreesStayInside(g, ts[1..], keys);
    }
  }

  lemma {:induction false} TreeFollowsRefs(g: Registries, t: Tree, k: Key, r: Key)
    requires Unfolds(g, t) && k in Preorder(t) && Lookup(g, k).Some? && r in Refs(Lookup(g, k).value)
    ensures r in Preorder(t)
    decreases t, 1
  {
    if k == t.key {
      var i :| 0 <= i < |t.children| && t.children[i].key == r;
      ChildIsListed(t.children, i);
    } else {
      TreesFollowRefs(g, t.children, k, r);
    }
  }

  lemma {:induction false} TreesFollowRefs(g: Registries, ts: seq<Tree>, k: Key, r: Key)
    requires AllUnfold(g, ts) && k in PreorderAll(ts) && Lookup(g, k).Some? && r in Refs(Lookup(g, k).value)
    ensures r in PreorderAll(ts)
    decreases ts, 0
  {
    if k in Preorder(ts[0]) {
      TreeFollowsRefs(g, ts[0], k, r);
    } else {
      TreesFollowRefs(g, ts[1..], k, r);
    }
  }

  lemma {:induction false} ChildIsListed(ts: seq<Tree>, i: nat)
    requires i < |ts|
    ensures ts[i].key in PreorderAll(ts)
  {
    if i > 0 {
      ChildIsListed(ts[1..], i - 1);
    }
  }

  /** The keys of the tree are exactly those reachable from its root: the least closed set holding it. */
  lemma TreeIsReachableSet(g: Registries, t: Tree)
    requires Unfolds(g, t)
    ensures t.key in Keys(Preorder(t)) && Closed(g, Keys(Preorder(t)))
    ensures forall keys: set<Key> | Closed(g, keys) && t.key in keys :: Keys(Preorder(t)) <= keys
  {
    forall k, e, r | k in Preorder(t) && IsEntry(g, k, e) && NamesKey(e, r) ensures r in Preorder(t) {
      LookupFinds(g, k, e);
      RefsAreNames(e, r);
      TreeFollowsRefs(g, t, k, r);
    }
    forall keys: set<Key> | Closed(g, keys) && t.key in keys ensures Keys(Preorder(t)) <= keys {
      TreeStaysInside(g, t, keys);
    }
  }

  // ---------------------------------------------------------------------
  // What a name stands for
  // ---------------------------------------------------------------------

  /** The tree of a name that is understood. */
  ghost predicate Unfolding(g: Registries, root: Key, t: Tree) {
    t.key == root && Unfolds(g, t) && Clean(g, Preorder(t), {})
  }

  /** The references of the name unfold into a tree of complete keys, each met once. */
  ghost predicate Understood(g: Registries, root: Key) {
    exists t: Tree :: Unfolding(g, root, t)
  }

  ghost function TreeOf(g: Registries, root: Key): (t: Tree)
    requires Understood(g, root)
    ensures Unfolding(g, root, t)
  {
    var t: Tree :| Unfolding(g, root, t);
    t
  }

  /** The keys whose own members the name stands for, in order. */
  ghost function Members(g: Registries, root: Key): (keys: seq<Key>)
    requires Understood(g, root)
    ensures AllComplete(g, keys)
  {
    Preorder(TreeOf(g, root))
  }

  /** What a list of keys has to offer, entry after entry. */
  lemma {:induction false} GatheredIsTheirOwn(g: Registries, keys: seq<Key>)
    requires AllComplete(g, keys)
    ensures var r := Gathered(g, keys);
            && r.complete
            && r.networks == Flatten(seq(|keys|, i requires 0 <= i < |keys| => Lookup(g, keys[i]).value.networks))
            && r.ports == Flatten(seq(|keys|, i requires 0 <= i < |keys| => Lookup(g, keys[i]).value.ports))
            && r.protocols == Flatten(seq(|keys|, i requires 0 <= i < |keys| => Lookup(g, keys[i]).value.protocols))
  {
    if keys != [] {
      var n := |keys| - 1;
      var front, last := keys[..n], [keys[n]];
      assert keys == front + last;
      GatheredConcat(g, front, last);
      assert last[1..] == [];
      ExtendNothing(Own(Lookup(g, keys[n]).value));
      GatheredIsTheirOwn(g, front);
      var networks := seq(|keys|, i requires 0 <= i < |keys| => Lookup(g, keys[i]).value.networks);
      var ports := seq(|keys|, i requires 0 <= i < |keys| => Lookup(g, keys[i]).value.ports);
      var protocols := seq(|keys|, i requires 0 <= i < |keys| => Lookup(g, keys[i]).value.protocols);
      assert networks[..n] == seq(n, i requires 0 <= i < n => Lookup(g, front[i]).value.networks);
      assert ports[..n] == seq(n, i requires 0 <= i < n => Lookup(g, front[i]).value.ports);
      assert protocols[..n] == seq(n, i requires 0 <= i < n => Lookup(g, front[i]).value.protocols);
    }
  }

  ghost function NetworksOf(g: Registries, root: Key): seq<Spec>
    requires Understood(g, root)
  {
    var keys := Members(g, root);
    Flatten(seq(|keys|, i requires 0 <= i < |keys| => Lookup(g, keys[i]).value.networks))
  }

  ghost function PortsOf(g: Registries, root: Key): seq<int>
    requires Understood(g, root)
  {
    var keys := Members(g, root);
    Flatten(seq(|keys|, i requires 0 <= i < |keys| => Lookup(g, keys[i]).value.ports))
  }

  ghost function ProtocolsOf(g: Registries, root: Key): seq<string>
    requires Understood(g, root)
  {
    var keys := Members(g, root);
    Flatten(seq(|keys|, i requires 0 <= i < |keys| => Lookup(g, keys[i]).value.protocols))
  }

  /** The expansion is complete exactly for understood names, and lists what their members have to offer. */
  lemma ExpansionIsUnderstanding(g: Registries, root: Key)
    ensures var r := Expanded(g, root, {}).0;
            && (r.complete <==> Understood(g, root))
            && (r.complete ==>
                  r.networks == NetworksOf(g, root) && r.ports == PortsOf(g, root)
                    && r.protocols == ProtocolsOf(g, root))
  {
    CompleteExactlyWhen(g, root);
    if t: Tree :| t.key == root && Unfolds(g, t) && Clean(g, Preorder(t), {}) {
      assert Unfolding(g, root, t);
    }
    if Understood(g, root) {
      GatheredIsTheirOwn(g, Members(g, root));
    }
  }
}
