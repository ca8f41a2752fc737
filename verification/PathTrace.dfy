/**
 The site-restricted breadth-first search of apps/api/app/store/memory.py,
 `InMemoryTopology.path_trace`.
 */
module PathTrace {
  datatype Device = Device(site: string, neighbors: seq<string>)

  /** A neighbour that is not a device is a KeyError once the search takes it off the queue. */
  datatype Trace = Found(path: seq<string>) | NoPath | UnknownDevice(name: string)

  datatype Item = Item(node: string, path: seq<string>)

  class InMemoryTopology {
    const devices: map<string, Device>

    constructor (devices: map<string, Device>)
      ensures this.devices == devices
    {
      this.devices := devices;
    }

    /** Devices without a site belong to every site, and no site asks for all of them. */
    predicate SiteMatch(name: string, site: string) {
      site == "" || name !in devices || devices[name].site == "" || devices[name].site == site
    }

    /** The name is not that of a device of some other site. */
    ghost predicate OnSite(name: string, site: string) {
      name in devices && site != "" ==> devices[name].site in {"", site}
    }

    lemma MatchIsOnSite(name: string, site: string)
      ensures SiteMatch(name, site) <==> OnSite(name, site)
    {
    }

    /** `next` may follow `node` on a path. */
    ghost predicate Hop(node: string, next: string, site: string) {
      node in devices && next in devices[node].neighbors && OnSite(next, site)
    }

    ghost predicate Walk(path: seq<string>, source: string, node: string, site: string) {
      && path != [] && path[0] == source && path[|path| - 1] == node
      && forall i | 0 <= i < |path| - 1 :: Hop(path[i], path[i + 1], site)
    }

    ghost predicate Shortest(path: seq<string>, source: string, node: string, site: string) {
      && Walk(path, source, node, site)
      && forall other | Walk(other, source, node, site) :: |path| <= |other|
    }

    /** Every walk of at most n nodes ends at a node already seen. */
    ghost predicate Covered(seen: set<string>, source: string, site: string, n: nat) {
      forall path, node | Walk(path, source, node, site) && |path| <= n :: node in seen
    }

    /** Every hop from a node taken off the queue leads to a node already seen. */
    ghost predicate Explored(done: set<string>, seen: set<string>, site: string) {
      forall node, next | node in done && Hop(node, next, site) :: next in seen
    }

    ghost predicate Queued(queue: seq<Item>, node: string) {
      exists i :: 0 <= i < |queue| && queue[i].node == node
    }

    /** Paths in the queue are shortest, and their lengths grow by at most one from front to back. */
    ghost predicate Levels(queue: seq<Item>, source: string, site: string, n: nat) {
      && (forall i | 0 <= i < |queue| :: Shortest(queue[i].path, source, queue[i].node, site))
      && (forall i | 0 <= i < |queue| :: n <= |queue[i].path| <= n + 1)
      && (forall i, j | 0 <= i < j < |queue| :: |queue[i].path| <= |queue[j].path|)
    }

    lemma WalkPrefix(path: seq<string>, source: string, node: string, site: string)
      requires Walk(path, source, node, site) && |path| > 1
      ensures var n := |path| - 1;
              Walk(path[..n], source, path[n - 1], site) && Hop(path[n - 1], node, site)
    {
      var n := |path| - 1;
      assert Hop(path[n - 1], path[n - 1 + 1], site);
    }

    lemma WalkExtends(path: seq<string>, source: string, node: string, next: string, site: string)
      requires Walk(path, source, node, site) && Hop(node, next, site)
      ensures Walk(path + [next], source, next, site)
    {
      var longer := path + [next];
      forall i | 0 <= i < |longer| - 1 ensures Hop(longer[i], longer[i + 1], site) {
        if i < |path| - 1 {
          assert Hop(path[i], path[i + 1], site);
        }
      }
    }

    /** A node that some walk reaches within the level cannot still be queued beyond it. */
    lemma PastLevelMeansDone(queue: seq<Item>, node: string, source: string, site: string, path: seq<string>)
      requires forall i | 0 <= i < |queue| :: Shortest(queue[i].path, source, queue[i].node, site)
      requires forall i | 0 <= i < |queue| :: |queue[i].path| > |path|
      requires Walk(path, source, node, site)
      ensures !Queued(queue, node)
    {
    }

    /** When the front of the queue is past level n, the nodes seen cover one level more. */
    lemma NextLevel(queue: seq<Item>, done: set<string>, seen: set<string>, source: string, site: string, n: nat)
      requires Covered(seen, source, site, n) && Explored(done, seen, site) && n >= 1
      requires forall node | node in seen :: node in done || Queued(queue, node)
      requires forall i | 0 <= i < |queue| :: Shortest(queue[i].path, source, queue[i].node, site)
      requires forall i | 0 <= i < |queue| :: |queue[i].path| > n
      ensures Covered(seen, source, site, n + 1)
    {
      forall path, node | Walk(path, source, node, site) && |path| <= n + 1 ensures node in seen {
        if |path| == n + 1 {
          WalkPrefix(path, source, node, site);
          var before := path[n - 1];
          assert before in seen;
          PastLevelMeansDone(queue, before, source, site, path[..n]);
          assert Hop(before, node, site);
        }
      }
    }

    /** With the queue empty, nothing beyond what was seen is reachable at all. */
    lemma {:induction false} NothingMore(seen: set<string>, source: string, site: string, path: seq<string>,
                                         node: string)
      requires source in seen && Explored(seen, seen, site) && Walk(path, source, node, site)
      ensures node in seen
      decreases |path|
    {
      if |path| > 1 {
        WalkPrefix(path, source, node, site);
        NothingMore(seen, source, site, path[..|path| - 1], path[|path| - 2]);
      }
    }

    /** A hop to a new node from the front of the queue gives that node a shortest path. */
    lemma NewNodeIsShortest(path: seq<string>, seen: set<string>, source: string, node: string, next: string,
                            site: string)
      requires Shortest(path, source, node, site) && Hop(node, next, site)
      requires Covered(seen, source, site, |path|) && next !in seen
      ensures Shortest(path + [next], source, next, site)
    {
      WalkExtends(path, source, node, next, site);
    }

    lemma QueueGrows(queue: seq<Item>, item: Item, source: string, site: string, n: nat)
      requires Levels(queue, source, site, n) && Shortest(item.path, source, item.node, site) && |item.path| == n + 1
      ensures Levels(queue + [item], source, site, n)
      ensures forall node :: Queued(queue + [item], node) <==> Queued(queue, node) || node == item.node
    {
      hide Shortest;
      var longer := queue + [item];
      assert longer[|queue|] == item;
      forall node | Queued(queue, node) ensures Queued(longer, node) {
        var i :| 0 <= i < |queue| && queue[i].node == node;
        assert longer[i].node == node;
      }
    }

    /** Some device lists this name as a neighbour. */
    ghost predicate Listed(name: string) {
      exists d :: d in devices && name in devices[d].neighbors
    }

    /** The inner loop: unseen neighbours of the node taken off, in order. */
    method Discover(queue: seq<Item>, seen: set<string>, node: string, path: seq<string>, ghost source: string,
                    site: string)
      returns (queue': seq<Item>, seen': set<string>)
      requires node in devices && Shortest(path, source, node, site)
      requires Covered(seen, source, site, |path|) && Levels(queue, source, site, |path|)
      requires forall i | 0 <= i < |queue| :: queue[i].node in seen
      ensures Levels(queue', source, site, |path|)
      ensures forall i | 0 <= i < |queue'| :: queue'[i].node in seen'
      ensures seen <= seen' && (seen' == seen ==> queue' == queue)
      ensures forall next | Hop(node, next, site) :: next in seen'
      ensures forall next | next in seen' && next !in seen :: Listed(next) && Queued(queue', next)
      ensures forall next | Queued(queue, next) :: Queued(queue', next)
    {
      hide Shortest, Covered, Levels, Queued, Walk;
      queue', seen' := queue, seen;
      var neighbors := devices[node].neighbors;
      for i := 0 to |neighbors|
        invariant Levels(queue', source, site, |path|)
        invariant seen <= seen' && (seen' == seen ==> queue' == queue)
        invariant forall k | 0 <= k < |queue'| :: queue'[k].node in seen'
        invariant forall k | 0 <= k < i && OnSite(neighbors[k], site) :: neighbors[k] in seen'
        invariant forall next | next in seen' && next !in seen :: Listed(next) && Queued(queue', next)
        invariant forall next | Queued(queue, next) :: Queued(queue', next)
      {
        var neighbor := neighbors[i];
        MatchIsOnSite(neighbor, site);
        if neighbor !in seen' && SiteMatch(neighbor, site) {
          NewNodeIsShortest(path, seen, source, node, neighbor, site);
          QueueGrows(queue', Item(neighbor, path + [neighbor]), source, site, |path|);
          seen' := seen' + {neighbor};
          queue' := queue' + [Item(neighbor, path + [neighbor])];
        }
      }
    }

    function Names(): set<string> {
      devices.Keys + (set d, k | d in devices && 0 <= k < |devices[d].neighbors| :: devices[d].neighbors[k])
    }

    lemma ListedIsNamed(name: string)
      requires Listed(name)
      ensures name in Names()
    {
      var d :| d in devices && name in devices[d].neighbors;
      var k :| 0 <= k < |devices[d].neighbors| && devices[d].neighbors[k] == name;
    }

    /** The search has taken `done` off the queue, seen `seen`, and is at level n. */
    ghost predicate Searching(queue: seq<Item>, seen: set<string>, done: set<string>, n: nat, source: string,
                              site: string) {
      && n >= 1 && Levels(queue, source, site, n)
      && Covered(seen, source, site, n) && Explored(done, seen, site)
      && source in seen && done <= seen
      && (forall node | node in seen :: node in done || Queued(queue, node))
      && (forall node | node in seen :: node == source || Listed(node))
      && (forall i | 0 <= i < |queue| :: queue[i].node in seen)
    }

    lemma SearchStarts(source: string, site: string)
      ensures Searching([Item(source, [source])], {source}, {}, 1, source, site)
    {
      var queue := [Item(source, [source])];
      assert queue[0].node == source;
      assert Walk([source], source, source, site);
    }

    /** Moving up a level when the front of the queue asks for it. */
    lemma LevelUp(queue: seq<Item>, seen: set<string>, done: set<string>, n: nat, source: string, site: string)
      requires Searching(queue, seen, done, n, source, site) && queue != []
      ensures Searching(queue, seen, done, |queue[0].path|, source, site)
      ensures Shortest(queue[0].path, source, queue[0].node, site)
    {
      if |queue[0].path| == n + 1 {
        assert forall i | 0 <= i < |queue| :: |queue[i].path| > n;
        NextLevel(queue, done, seen, source, site, n);
      }
    }

    /** Taking the front off and discovering its neighbours keeps the search going. */
    lemma SearchContinues(queue: seq<Item>, seen: set<string>, done: set<string>, source: string, site: string,
                          queue': seq<Item>, seen': set<string>)
      requires queue != [] && Searching(queue, seen, done, |queue[0].path|, source, site)
      requires Levels(queue', source, site, |queue[0].path|) && seen <= seen'
      requires forall next | Hop(queue[0].node, next, site) :: next in seen'
      requires forall next | next in seen' && next !in seen :: Listed(next) && Queued(queue', next)
      requires forall next | Queued(queue[1..], next) :: Queued(queue', next)
      requires forall i | 0 <= i < |queue'| :: queue'[i].node in seen'
      ensures Searching(queue', seen', done + {queue[0].node}, |queue[0].path|, source, site)
    {
      hide Levels, Shortest, Walk, Hop, Listed;
      forall node | node in seen ensures node in done + {queue[0].node} || Queued(queue', node) {
        if Queued(queue, node) && node != queue[0].node {
          var i :| 0 <= i < |queue| && queue[i].node == node;
          assert queue[1..][i - 1].node == node;
        }
      }
    }

    ghost predicate Endpoints(source: string, target: string, site: string) {
      source in devices && target in devices && OnSite(source, site) && OnSite(target, site)
    }

    lemma FrontOfQueue(queue: seq<Item>, seen: set<string>, done: set<string>, n: nat, source: string, site: string)
      requires Searching(queue, seen, done, n, source, site) && queue != []
      ensures Covered(seen, source, site, n) && Levels(queue[1..], source, site, n)
      ensures queue[0].node == source || Listed(queue[0].node)
      ensures forall i | 0 <= i < |queue[1..]| :: queue[1..][i].node in seen
    {
      hide Shortest, Listed, Covered, Explored;
    }

    lemma SeenGrowsTowardNames(before: set<string>, after: set<string>)
      requires before <= after && forall name | name in after && name !in before :: Listed(name)
      ensures before != after ==> Names() - after < Names() - before
    {
      if name :| name in after && name !in before {
        ListedIsNamed(name);
        assert name in Names() - before && name !in Names() - after;
      } else {
        assert before == after;
      }
    }

    /** No walk reaches this node in fewer than n nodes. */
    ghost predicate Beyond(node: string, source: string, site: string, n: nat) {
      forall path | Walk(path, source, node, site) :: n <= |path|
    }

    /** Whatever has not been taken off the queue is at this level or beyond. */
    lemma NotTakenIsBeyond(queue: seq<Item>, seen: set<string>, done: set<string>, n: nat, source: string,
                           site: string, node: string)
      requires Searching(queue, seen, done, n, source, site) && node !in done
      ensures Beyond(node, source, site, n)
    {
      forall path | Walk(path, source, node, site) ensures n <= |path| {
        if |path| <= n {
          assert Queued(queue, node);
        }
      }
    }

    ghost predicate Unreachable(node: string, source: string, site: string) {
      forall path :: !Walk(path, source, node, site)
    }

    lemma Exhausted(seen: set<string>, done: set<string>, n: nat, source: string, target: string, site: string)
      requires Searching([], seen, done, n, source, site) && target !in done
      ensures Unreachable(target, source, site)
    {
      assert forall node | node in seen :: !Queued([], node);
      assert done == seen;
      forall path ensures !Walk(path, source, target, site) {
        if Walk(path, source, target, site) {
          NothingMore(seen, source, site, path, target);
        }
      }
    }

    /**
     A found path has the fewest hops of any, and no name that is not a device is
     closer.  An unknown device is one that is reached, and no later than the target.
     No path is reported exactly when an endpoint is absent or off-site, or neither the
     target nor any unknown name is reachable.
     */
    method PathTrace(source: string, target: string, site: string) returns (trace: Trace)
      ensures !trace.NoPath? ==> Endpoints(source, target, site)
      ensures trace.Found? ==> Shortest(trace.path, source, target, site)
      ensures trace.Found? ==> forall name | name !in devices :: Beyond(name, source, site, |trace.path|)
      ensures trace.UnknownDevice? ==>
                trace.name !in devices &&
                exists path :: Shortest(path, source, trace.name, site) && Beyond(target, source, site, |path|)
      ensures trace.NoPath? <==>
                || !Endpoints(source, target, site)
                || (Unreachable(target, source, site) &&
                    forall name | name !in devices :: Unreachable(name, source, site))
    {
      MatchIsOnSite(source, site);
      MatchIsOnSite(target, site);
      if !SiteMatch(source, site) || !SiteMatch(target, site) {
        return NoPath;
      }
      if source !in devices || target !in devices {
        return NoPath;
      }
      hide Searching, Shortest, Walk, Levels, Listed, Names, Beyond, Unreachable;
      var queue, seen := [Item(source, [source])], {source};
      ghost var done: set<string>, n: nat := {}, 1;
      SearchStarts(source, site);
      while queue != []
        invariant Searching(queue, seen, done, n, source, site) && target !in done && done <= devices.Keys
        decreases Names() - seen, |queue|
      {
        LevelUp(queue, seen, done, n, source, site);
        var item := queue[0];
        n := |item.path|;
        ReachedInTime(queue, seen, done, source, site);
        if item.node == target {
          return Found(item.path);
        }
        FrontOfQueue(queue, seen, done, n, source, site);
        if item.node !in devices {
          return UnknownDevice(item.node);
        }
        ghost var queue0, seen0 := queue, seen;
        queue, seen := Discover(queue[1..], seen, item.node, item.path, source, site);
        SeenGrowsTowardNames(seen0, seen);
        SearchContinues(queue0, seen0, done, source, site, queue, seen);
        done := done + {item.node};
      }
      forall node | node !in done ensures Unreachable(node, source, site) {
        Exhausted(seen, done, n, source, node, site);
      }
      trace := NoPath;
    }

    /** The front of the queue is reachable, and nothing still to be taken is closer. */
    lemma ReachedInTime(queue: seq<Item>, seen: set<string>, done: set<string>, source: string, site: string)
      requires queue != [] && Searching(queue, seen, done, |queue[0].path|, source, site)
      ensures Shortest(queue[0].path, source, queue[0].node, site) && !Unreachable(queue[0].node, source, site)
      ensures forall node | node !in done :: Beyond(node, source, site, |queue[0].path|)
    {
      forall node | node !in done ensures Beyond(node, source, site, |queue[0].path|) {
        NotTakenIsBeyond(queue, seen, done, |queue[0].path|, source, site, node);
      }
      assert Walk(queue[0].path, source, queue[0].node, site);
    }

    /** When every neighbour listed is a device, no unknown name is reachable. */
    lemma AllKnownNeverUnknown(source: string, site: string, name: string)
      requires source in devices && name !in devices && forall other | Listed(other) :: other in devices
      ensures Unreachable(name, source, site)
    {
      forall path ensures !Walk(path, source, name, site) {
        if Walk(path, source, name, site) && |path| > 1 {
          WalkPrefix(path, source, name, site);
          assert Listed(name);
        }
      }
    }
  }
}
