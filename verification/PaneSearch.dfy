/** The search for the agy process at or beneath a tmux pane's process: a breadth-first walk of the
    child relation, bounded in depth, over a process table that may be cyclic. */
module PaneSearch {
  import opened Common

  type Pid = int
  type Children = Pid -> seq<Pid>

  const MAX_PANE_SUBTREE_DEPTH: nat := 32

  // ----- distance from the pane -----

  /** Some way from `pane` to `pid` takes exactly `d` child steps. */
  ghost predicate Reach(children: Children, pane: Pid, pid: Pid, d: nat)
    decreases d
  {
    if d == 0 then pid == pane
    else exists q :: Reach(children, pane, q, d - 1) && pid in children(q)
  }

  /** The shortest way from `pane` to `pid` takes `d` child steps. */
  ghost predicate AtDistance(children: Children, pane: Pid, pid: Pid, d: nat) {
    Reach(children, pane, pid, d) && forall k: nat :: k < d ==> !Reach(children, pane, pid, k)
  }

  ghost predicate Nearer(children: Children, pane: Pid, pid: Pid, d: nat) {
    exists k: nat :: k <= d && AtDistance(children, pane, pid, k)
  }

  /** No agy process is within `d` steps of the pane. */
  ghost predicate NoneWithin(children: Children, pane: Pid, agyPids: set<Pid>, d: nat) {
    forall a, k: nat :: a in agyPids && k <= d ==> !Reach(children, pane, a, k)
  }

  lemma {:induction false} ReachHasDistance(children: Children, pane: Pid, pid: Pid, d: nat) returns (k: nat)
    requires Reach(children, pane, pid, d)
    ensures k <= d && AtDistance(children, pane, pid, k)
  {
    k := d;
    while !AtDistance(children, pane, pid, k)
      invariant k <= d && Reach(children, pane, pid, k)
      decreases k
    {
      var bound := k;
      k :| k < bound && Reach(children, pane, pid, k);
    }
  }

  lemma StepBack(children: Children, pane: Pid, pid: Pid, d: nat) returns (q: Pid)
    requires AtDistance(children, pane, pid, d + 1)
    ensures AtDistance(children, pane, q, d) && pid in children(q)
  {
    q :| Reach(children, pane, q, d) && pid in children(q);
    assert forall k: nat :: k < d && Reach(children, pane, q, k) ==> Reach(children, pane, pid, k + 1);
  }

  /** With nobody at distance `d`, nobody is farther either. */
  lemma {:induction false} NobodyBeyond(children: Children, pane: Pid, d: nat, k: nat, pid: Pid)
    requires forall x :: !AtDistance(children, pane, x, d)
    requires d <= k
    ensures !AtDistance(children, pane, pid, k)
  {
    if d < k && AtDistance(children, pane, pid, k) {
      var q := StepBack(children, pane, pid, k - 1);
      NobodyBeyond(children, pane, d, k - 1, q);
    }
  }

  // ----- the walk -----

  /** After `d` levels: the frontier is everything at distance exactly `d`, the visited set is
      everything nearer or there, and none of it is agy. */
  ghost predicate Level(children: Children, pane: Pid, agyPids: set<Pid>, visited: set<Pid>, frontier: seq<Pid>, d: nat) {
    && (forall x :: x in frontier <==> AtDistance(children, pane, x, d))
    && (forall x :: x in visited <==> Nearer(children, pane, x, d))
    && NoneWithin(children, pane, agyPids, d)
  }

  /** Part of a level's expansion: the children of `parents` and the pids in `partial` are visited,
      and what is newly visited, which is not agy, is what will be walked next. */
  ghost predicate Spread(children: Children, agyPids: set<Pid>, before: set<Pid>, parents: seq<Pid>, partial: seq<Pid>,
                         visited: set<Pid>, next: seq<Pid>)
  {
    && (forall x :: x in visited <==> x in before || x in next)
    && (forall x :: x in next ==> x !in before && x !in agyPids)
    && (forall x :: x in next ==> x in partial || ChildOfSome(children, parents, x))
    && (forall x :: x in partial ==> x in visited)
    && (forall p, x :: p in parents && x in children(p) ==> x in visited)
  }

  ghost predicate ChildOfSome(children: Children, parents: seq<Pid>, x: Pid) {
    exists p :: p in parents && x in children(p)
  }

  lemma FirstLevel(children: Children, pane: Pid, agyPids: set<Pid>)
    requires pane !in agyPids
    ensures Level(children, pane, agyPids, {pane}, [pane], 0)
  {
    assert AtDistance(children, pane, pane, 0);
  }

  /** A pid that was not visited by level `d` and is a child of that level is one step farther. */
  lemma NewPidIsNext(children: Children, pane: Pid, parent: Pid, child: Pid, d: nat)
    requires AtDistance(children, pane, parent, d) && child in children(parent)
    requires !Nearer(children, pane, child, d)
    ensures AtDistance(children, pane, child, d + 1)
  {
    assert Reach(children, pane, child, d + 1);
    forall k: nat | k <= d
      ensures !Reach(children, pane, child, k)
    {
      if Reach(children, pane, child, k) {
        var e := ReachHasDistance(children, pane, child, k);
      }
    }
  }

  lemma NextLevel(children: Children, pane: Pid, agyPids: set<Pid>, before: set<Pid>, frontier: seq<Pid>,
                  visited: set<Pid>, next: seq<Pid>, d: nat)
    requires Level(children, pane, agyPids, before, frontier, d)
    requires Spread(children, agyPids, before, frontier, [], visited, next)
    ensures Level(children, pane, agyPids, visited, next, d + 1)
  {
    forall x | x in next
      ensures AtDistance(children, pane, x, d + 1)
    {
      var p :| p in frontier && x in children(p);
      NewPidIsNext(children, pane, p, x, d);
    }
    forall x | AtDistance(children, pane, x, d + 1)
      ensures x in next
    {
      var q := StepBack(children, pane, x, d);
      assert q in frontier;
    }
    forall x
      ensures x in visited <==> Nearer(children, pane, x, d + 1)
    {
      if Nearer(children, pane, x, d + 1) && x !in next {
        var k: nat :| k <= d + 1 && AtDistance(children, pane, x, k);
        assert k <= d;
      }
    }
    NoAgyNewlyReached(children, pane, agyPids, next, d);
  }

  lemma NoAgyNewlyReached(children: Children, pane: Pid, agyPids: set<Pid>, next: seq<Pid>, d: nat)
    requires NoneWithin(children, pane, agyPids, d)
    requires forall x :: AtDistance(children, pane, x, d + 1) ==> x in next
    requires forall x :: x in next ==> x !in agyPids
    ensures NoneWithin(children, pane, agyPids, d + 1)
  {
    forall a, k: nat | a in agyPids && k <= d + 1
      ensures !Reach(children, pane, a, k)
    {
      if Reach(children, pane, a, k) {
        var e := ReachHasDistance(children, pane, a, k);
      }
    }
  }

  /** A level with nobody on it: the whole subtree has been walked. */
  lemma ExhaustedTable(children: Children, pane: Pid, agyPids: set<Pid>, visited: set<Pid>, d: nat, bound: nat)
    requires Level(children, pane, agyPids, visited, [], d)
    ensures NoneWithin(children, pane, agyPids, bound)
  {
    forall a, k: nat | a in agyPids && k <= bound
      ensures !Reach(children, pane, a, k)
    {
      if Reach(children, pane, a, k) {
        var e := ReachHasDistance(children, pane, a, k);
        if d <= e {
          NobodyBeyond(children, pane, d, e, a);
        }
      }
    }
  }

  /** The agy process nearest to the pane, when one is within the depth bound. */
  method AgyPidInPaneSubtree(pane: Pid, agyPids: set<Pid>, children: Children) returns (found: Option<Pid>)
    ensures found.Some? ==>
              && found.value in agyPids
              && exists d: nat :: && d <= MAX_PANE_SUBTREE_DEPTH
                                  && AtDistance(children, pane, found.value, d)
                                  && forall k: nat :: k < d ==> NoneWithin(children, pane, agyPids, k)
    ensures found.None? <==> NoneWithin(children, pane, agyPids, MAX_PANE_SUBTREE_DEPTH)
  {
    if agyPids == {} {
      return None;
    }
    if pane in agyPids {
      assert Reach(children, pane, pane, 0) && AtDistance(children, pane, pane, 0);
      return Some(pane);
    }
    var visited := {pane};
    var frontier := [pane];
    FirstLevel(children, pane, agyPids);
    for depth := 0 to MAX_PANE_SUBTREE_DEPTH
      invariant Level(children, pane, agyPids, visited, frontier, depth)
    {
      if frontier == [] {
        ExhaustedTable(children, pane, agyPids, visited, depth, MAX_PANE_SUBTREE_DEPTH);
        return None;
      }
      ghost var before, parents := visited, frontier;
      found, visited, frontier := ExpandLevel(pane, agyPids, children, visited, frontier, depth);
      if found.Some? {
        return;
      }
      NextLevel(children, pane, agyPids, before, parents, visited, frontier, depth);
    }
    return None;
  }

  /** One level of the walk: stops at the first agy process among the children not yet visited. */
  method ExpandLevel(ghost pane: Pid, agyPids: set<Pid>, children: Children, before: set<Pid>, frontier: seq<Pid>,
                     ghost depth: nat)
    returns (found: Option<Pid>, visited: set<Pid>, next: seq<Pid>)
    requires Level(children, pane, agyPids, before, frontier, depth)
    ensures found.Some? ==> found.value in agyPids && AtDistance(children, pane, found.value, depth + 1)
    ensures found.None? ==> Spread(children, agyPids, before, frontier, [], visited, next)
  {
    found, visited, next := None, before, [];
    for i := 0 to |frontier|
      invariant found.None?
      invariant Spread(children, agyPids, before, frontier[..i], [], visited, next)
    {
      var offspring := children(frontier[i]);
      for j := 0 to |offspring|
        invariant found.None?
        invariant Spread(children, agyPids, before, frontier[..i], offspring[..j], visited, next)
      {
        var child := offspring[j];
        assert offspring[..j + 1] == offspring[..j] + [child];
        if child in visited {
          continue;
        }
        if child in agyPids {
          assert frontier[i] in frontier;
          NewPidIsNext(children, pane, frontier[i], child, depth);
          found := Some(child);
          return;
        }
        visited := visited + {child};
        next := next + [child];
      }
      assert offspring[..|offspring|] == offspring;
      assert frontier[..i + 1] == frontier[..i] + [frontier[i]];
      SpreadParent(children, agyPids, before, frontier[..i], frontier[i], visited, next);
    }
    assert frontier[..|frontier|] == frontier;
  }

  lemma SpreadParent(children: Children, agyPids: set<Pid>, before: set<Pid>, parents: seq<Pid>, parent: Pid,
                     visited: set<Pid>, next: seq<Pid>)
    requires Spread(children, agyPids, before, parents, children(parent), visited, next)
    ensures Spread(children, agyPids, before, parents + [parent], [], visited, next)
  {
    forall x | x in next
      ensures ChildOfSome(children, parents + [parent], x)
    {
      if ChildOfSome(children, parents, x) {
        var p :| p in parents && x in children(p);
        assert p in parents + [parent];
      } else {
        assert parent in parents + [parent];
      }
    }
  }
}
