/** The stackless walk over everything that hears a mount: propagation_next and the loops that drive it. */
module PropagationWalk {
  import opened Lists
  import opened Propagation

  ghost predicate RankedBelow(S: set<Mount>, top: int)
    reads S`rank
  {
    forall m {:trigger m.rank} :: m in S ==> m.rank <= top
  }

  /** The slaves of `m` from place `i` on, each followed by everything below it, in list order. */
  ghost function Forest(S: set<Mount>, top: int, m: Mount, i: nat): (r: seq<Mount>)
    requires WellFormed(S) && RankedBelow(S, top) && m in S && i <= |m.slaves|
    reads S`next, S`prev, S`master, S`slaves, S`ring, S`group, S`shared, S`rank, S`isNew
    ensures forall k :: 0 <= k < |r| ==> r[k] in S
    decreases top - m.rank, |m.slaves| - i
  {
    if i == |m.slaves| then []
    else
      assert m.slaves[i] in m.slaves;
      [m.slaves[i]] + Below(S, top, m.slaves[i]) + Forest(S, top, m, i + 1)
  }

  /** Everything below `m`, in the order the walk meets it. */
  ghost function Below(S: set<Mount>, top: int, m: Mount): (r: seq<Mount>)
    requires WellFormed(S) && RankedBelow(S, top) && m in S
    reads S`next, S`prev, S`master, S`slaves, S`ring, S`group, S`shared, S`rank, S`isNew
    ensures forall k :: 0 <= k < |r| ==> r[k] in S
    decreases top - m.rank, |m.slaves| + 1
  {
    if m.isNew then [] else Forest(S, top, m, 0)
  }

  /** Steps from `m` around the ring to `origin`. */
  ghost function StepsTo(m: Mount, origin: Mount): (n: nat)
    requires m in m.ring && origin in m.ring
    reads m`ring
    ensures 1 <= n <= |m.ring|
  {
    var k, j := IndexOf(m.ring, m), IndexOf(m.ring, origin);
    if k < j then j - k else j - k + |m.ring|
  }

  lemma StepDown(S: set<Mount>, m: Mount, origin: Mount)
    requires Closed(S) && RingsClosed(S) && m in S && origin in m.ring && m.next != origin
    ensures m.next in m.ring && m.next.ring == m.ring && StepsTo(m.next, origin) == StepsTo(m, origin) - 1
  {
    var k := IndexOf(m.ring, m);
    assert m.ring[k].next == m.ring[Succ(k, |m.ring|)];
    NoDupIndex(m.ring, Succ(k, |m.ring|));
  }

  /** The walk never meets a mount whose master is the origin's unless it is a peer of the origin. */
  lemma WalkStays(S: set<Mount>, origin: Mount, m: Mount)
    requires WellFormed(S) && origin in S && m in S && Receives(S, origin, m)
    ensures origin.rank <= m.rank
    ensures m.master == origin.master <==> m in origin.ring
    ensures m !in origin.ring ==> m.master != null && Receives(S, origin, m.master)
    decreases m.rank
  {
    hide Contiguous, SlavesMatch, NoDup, Closes;
    if m !in origin.ring { WalkStays(S, origin, m.master); }
  }

  /** What the walk from `origin` still meets once everything below `m` has been met. */
  ghost function Rest(S: set<Mount>, top: int, m: Mount, origin: Mount): seq<Mount>
    requires WellFormed(S) && RankedBelow(S, top) && origin in S && m in S && Receives(S, origin, m)
    reads S`next, S`prev, S`master, S`slaves, S`ring, S`group, S`shared, S`rank, S`isNew
    decreases m.rank, if m in origin.ring then StepsTo(m, origin) else 0
  {
    WalkStays(S, origin, m);
    if m in origin.ring then
      if m.next == origin then []
      else
        StepDown(S, m, origin);
        [m.next] + Below(S, top, m.next) + Rest(S, top, m.next, origin)
    else
      Forest(S, top, m.master, IndexOf(m.master.slaves, m) + 1) + Rest(S, top, m.master, origin)
  }

  /** What the walk from `origin` still meets after `m`. */
  ghost function After(S: set<Mount>, top: int, m: Mount, origin: Mount): seq<Mount>
    requires WellFormed(S) && RankedBelow(S, top) && origin in S && m in S && Receives(S, origin, m)
    reads S`next, S`prev, S`master, S`slaves, S`ring, S`group, S`shared, S`rank, S`isNew
  {
    Below(S, top, m) + Rest(S, top, m, origin)
  }

  /** A slave that follows `m` on its master's list heads what is left. */
  lemma NextSlave(S: set<Mount>, top: int, m: Mount, origin: Mount)
    requires WellFormed(S) && RankedBelow(S, top) && origin in S && m in S && Receives(S, origin, m)
    requires m !in origin.ring && m.master != null && m in m.master.slaves
    requires IndexOf(m.master.slaves, m) + 1 < |m.master.slaves|
    ensures var s := m.master.slaves[IndexOf(m.master.slaves, m) + 1];
      s in S && Receives(S, origin, s) && Rest(S, top, m, origin) == [s] + After(S, top, s, origin)
  {
    hide RingsClosed, PeersAgree, Contiguous;
    WalkStays(S, origin, m);
    var k := IndexOf(m.master.slaves, m);
    var s := m.master.slaves[k + 1];
    assert s in m.master.slaves;
    NoDupIndex(m.master.slaves, k + 1);
    WalkStays(S, origin, m.master);
    WalkStays(S, origin, s);
    assert s !in origin.ring;
    var f := Forest(S, top, m.master, k + 2);
    assert Forest(S, top, m.master, k + 1) == [s] + Below(S, top, s) + f;
    assert Rest(S, top, s, origin) == f + Rest(S, top, m.master, origin);
    calc {
      Rest(S, top, m, origin);
      ([s] + Below(S, top, s) + f) + Rest(S, top, m.master, origin);
      [s] + (Below(S, top, s) + (f + Rest(S, top, m.master, origin)));
    }
  }

  lemma FirstSlave(S: set<Mount>, top: int, m: Mount, origin: Mount)
    requires WellFormed(S) && RankedBelow(S, top) && origin in S && m in S && Receives(S, origin, m)
    requires !m.isNew && m.slaves != []
    ensures var s := m.slaves[0];
      s in S && Receives(S, origin, s) && After(S, top, m, origin) == [s] + After(S, top, s, origin)
  {
    hide Contiguous, RingsClosed, PeersAgree, NoDup;
    var s := m.slaves[0];
    assert s in m.slaves;
    NoDupIndex(m.slaves, 0);
    WalkStays(S, origin, m);
    WalkStays(S, origin, s);
    var f := Forest(S, top, m, 1);
    assert Below(S, top, m) == [s] + Below(S, top, s) + f;
    assert Rest(S, top, s, origin) == f + Rest(S, top, m, origin);
    calc {
      After(S, top, m, origin);
      ([s] + Below(S, top, s) + f) + Rest(S, top, m, origin);
      [s] + (Below(S, top, s) + (f + Rest(S, top, m, origin)));
    }
  }

  /** The walk from `origin` stands at `m` and has exactly `left` to go. */
  ghost predicate At(S: set<Mount>, top: int, m: Mount, origin: Mount, left: seq<Mount>)
    reads S`next, S`prev, S`master, S`slaves, S`ring, S`group, S`shared, S`rank, S`isNew
  {
    && WellFormed(S) && RankedBelow(S, top) && origin in S && m in S && Receives(S, origin, m)
    && After(S, top, m, origin) == left
  }

  /** The walk is done below `m` and has exactly `left` to go. */
  ghost predicate Climbing(S: set<Mount>, top: int, m: Mount, origin: Mount, left: seq<Mount>)
    reads S`next, S`prev, S`master, S`slaves, S`ring, S`group, S`shared, S`rank, S`isNew
  {
    && WellFormed(S) && RankedBelow(S, top) && origin in S && m in S && Receives(S, origin, m)
    && Rest(S, top, m, origin) == left
  }

  lemma EnterSlaves(S: set<Mount>, top: int, m: Mount, origin: Mount, left: seq<Mount>)
    requires At(S, top, m, origin, left)
    ensures m.isNew || m.slaves == [] ==> Climbing(S, top, m, origin, left)
    ensures !m.isNew && m.slaves != [] ==>
      left != [] && left[0] == m.slaves[0] && At(S, top, m.slaves[0], origin, left[1..])
  {
    if !m.isNew && m.slaves != [] {
      FirstSlave(S, top, m, origin);
    } else {
      assert Below(S, top, m) == [];
    }
  }

  lemma ClimbStep(S: set<Mount>, top: int, m: Mount, origin: Mount, left: seq<Mount>)
    requires Climbing(S, top, m, origin, left)
    ensures m.master == origin.master && m.next == origin ==> left == []
    ensures m.master == origin.master && m.next != origin ==>
      left != [] && left[0] == m.next && At(S, top, m.next, origin, left[1..])
    ensures m.master != origin.master ==> m.master != null && m in m.master.slaves
    ensures m.master != origin.master ==>
      var k := IndexOf(m.master.slaves, m) + 1;
      if k < |m.master.slaves|
      then left != [] && left[0] == m.master.slaves[k] && At(S, top, m.master.slaves[k], origin, left[1..])
      else Climbing(S, top, m.master, origin, left) && 0 <= m.master.rank < m.rank
  {
    WalkStays(S, origin, m);
    if m.master == origin.master {
      if m.next != origin {
        StepDown(S, m, origin);
        assert left == [m.next] + After(S, top, m.next, origin);
      }
    } else if IndexOf(m.master.slaves, m) + 1 < |m.master.slaves| {
      NextSlave(S, top, m, origin);
    }
  }

  /** propagation_next: the first mount the walk has left, or nothing when it has left none. */
  method PropagationNext(ghost S: set<Mount>, ghost top: int, last: Mount, origin: Mount, ghost left: seq<Mount>)
    returns (r: Mount?)
    requires At(S, top, last, origin, left)
    ensures r == null ==> left == []
    ensures r != null ==> left != [] && r == left[0] && At(S, top, r, origin, left[1..])
  {
    hide At, Climbing;
    var m: Mount := last;
    EnterSlaves(S, top, m, origin, left);
    if !m.isNew && m.slaves != [] { return m.slaves[0]; }
    while true
      invariant Climbing(S, top, m, origin, left)
      decreases m.rank
    {
      ClimbStep(S, top, m, origin, left);
      var master := m.master;
      if master == origin.master {
        return if m.next == origin then null else m.next;
      } else if IndexOf(master.slaves, m) + 1 < |master.slaves| {
        return master.slaves[IndexOf(master.slaves, m) + 1];
      }
      m := master;
    }
  }

  /** The loop shared by every user of propagation_next: all mounts met, in order. */
  method Walk(ghost S: set<Mount>, ghost top: int, origin: Mount, ghost all: seq<Mount>) returns (visited: seq<Mount>)
    requires At(S, top, origin, origin, all)
    ensures visited == all
  {
    hide *;
    ghost var left := all;
    visited := [];
    var m := PropagationNext(S, top, origin, origin, left);
    while m != null
      invariant all == visited + left
      invariant m == null ==> left == []
      invariant m != null ==> left != [] && left[0] == m && At(S, top, m, origin, left[1..])
      decreases |left|
    {
      visited, left := visited + [m], left[1..];
      m := PropagationNext(S, top, m, origin, left);
    }
  }

  // ---------------------------------------------------------------- what the walk meets, and how often

  /** Strictly below `m`, without passing through the slaves of a mount that is still new. */
  ghost predicate Descends(S: set<Mount>, m: Mount, y: Mount)
    requires Closed(S) && Ranked(S) && y in S
    reads S`next, S`prev, S`master, S`slaves, S`ring, S`rank, S`isNew
    decreases y.rank
  {
    y.master != null && !y.master.isNew && (y.master == m || Descends(S, m, y.master))
  }

  ghost predicate Under(S: set<Mount>, m: Mount, y: Mount)
    requires Closed(S) && Ranked(S) && y in S
    reads S`next, S`prev, S`master, S`slaves, S`ring, S`rank, S`isNew
  {
    y == m || Descends(S, m, y)
  }

  lemma DescendsRank(S: set<Mount>, m: Mount, y: Mount)
    requires Closed(S) && Ranked(S) && m in S && y in S && Descends(S, m, y)
    ensures m.rank < y.rank
    decreases y.rank
  {
    assert y.master.rank < y.rank;
    if y.master != m { DescendsRank(S, m, y.master); }
  }

  /** Two mounts above the same one are above each other. */
  lemma Comparable(S: set<Mount>, s: Mount, t: Mount, y: Mount)
    requires Closed(S) && Ranked(S) && s in S && t in S && y in S && Under(S, s, y) && Under(S, t, y)
    ensures Under(S, s, t) || Under(S, t, s)
    decreases y.rank
  {
    if y != s && y != t {
      assert y.master.rank < y.rank;
      Comparable(S, s, t, y.master);
    }
  }

  lemma SiblingsApart(S: set<Mount>, m: Mount, s: Mount, t: Mount, y: Mount)
    requires Closed(S) && Ranked(S) && m in S && s in S && t in S && y in S && s != t
    requires s.master == m && t.master == m && Under(S, s, y)
    ensures !Under(S, t, y)
  {
    if Under(S, t, y) {
      Comparable(S, s, t, y);
      var a, b := if Under(S, s, t) then s else t, if Under(S, s, t) then t else s;
      assert a.rank > m.rank;
      if m != a { DescendsRank(S, a, m); }
      assert false;
    }
  }

  lemma PeersApart(S: set<Mount>, s: Mount, t: Mount, y: Mount)
    requires Closed(S) && Ranked(S) && s in S && t in S && y in S && s != t && s.rank == t.rank && Under(S, s, y)
    ensures !Under(S, t, y)
  {
    if Under(S, t, y) {
      Comparable(S, s, t, y);
      if Under(S, s, t) { DescendsRank(S, s, t); } else { DescendsRank(S, t, s); }
      assert false;
    }
  }

  /** `y` is under one of the slaves of `m` from place `i` on. */
  ghost predicate UnderSlave(S: set<Mount>, m: Mount, i: nat, y: Mount)
    requires Closed(S) && Ranked(S) && m in S && y in S
    reads S`next, S`prev, S`master, S`slaves, S`ring, S`rank, S`isNew
  {
    exists j {:trigger m.slaves[j]} :: i <= j < |m.slaves| && Under(S, m.slaves[j], y)
  }

  lemma DescendsBySlave(S: set<Mount>, m: Mount, y: Mount)
    requires Closed(S) && SlavesMatch(S) && Ranked(S) && m in S && y in S && !m.isNew
    ensures Descends(S, m, y) <==> UnderSlave(S, m, 0, y)
    decreases y.rank
  {
    if y.master != null {
      assert y.master.rank < y.rank;
      DescendsBySlave(S, m, y.master);
    }
    if Descends(S, m, y) {
      if y.master == m {
        assert y in m.slaves;
        var j := IndexOf(m.slaves, y);
        assert Under(S, m.slaves[j], y);
      } else {
        var j :| 0 <= j < |m.slaves| && Under(S, m.slaves[j], y.master);
        assert Under(S, m.slaves[j], y);
      }
    }
    if UnderSlave(S, m, 0, y) {
      var j :| 0 <= j < |m.slaves| && Under(S, m.slaves[j], y);
      assert m.slaves[j] in m.slaves;
      if y != m.slaves[j] && y.master != m { assert UnderSlave(S, m, 0, y.master); }
    }
  }

  /** The forest from place `i` on holds exactly what is under those slaves, each once. */
  lemma ForestContents(S: set<Mount>, top: int, m: Mount, i: nat)
    requires WellFormed(S) && RankedBelow(S, top) && m in S && i <= |m.slaves|
    ensures forall y :: y in Forest(S, top, m, i) <==> y in S && UnderSlave(S, m, i, y)
    ensures NoDup(Forest(S, top, m, i))
    decreases top - m.rank, |m.slaves| - i
  {
    if i < |m.slaves| {
      var s := m.slaves[i];
      assert s in m.slaves;
      var b, f := Below(S, top, s), Forest(S, top, m, i + 1);
      BelowContents(S, top, s);
      ForestContents(S, top, m, i + 1);
      ForestStep(S, top, m, i, b, f);
    }
  }

  lemma BelowContents(S: set<Mount>, top: int, m: Mount)
    requires WellFormed(S) && RankedBelow(S, top) && m in S
    ensures forall y :: y in Below(S, top, m) <==> y in S && Descends(S, m, y)
    ensures NoDup(Below(S, top, m))
    decreases top - m.rank, |m.slaves| + 1
  {
    if m.isNew {
      forall y | y in S ensures !Descends(S, m, y) { NewHidesAll(S, m, y); }
    } else {
      ForestContents(S, top, m, 0);
      forall y | y in S ensures Descends(S, m, y) <==> UnderSlave(S, m, 0, y) { DescendsBySlave(S, m, y); }
    }
  }

  lemma NewHidesAll(S: set<Mount>, m: Mount, y: Mount)
    requires Closed(S) && Ranked(S) && m in S && y in S && m.isNew
    ensures !Descends(S, m, y)
    decreases y.rank
  {
    if y.master != null { assert y.master.rank < y.rank; NewHidesAll(S, m, y.master); }
  }

  lemma ForestStep(S: set<Mount>, top: int, m: Mount, i: nat, b: seq<Mount>, f: seq<Mount>)
    requires WellFormed(S) && m in S && i < |m.slaves| && m.slaves[i] in S
    requires NoDup(b) && NoDup(f)
    requires forall y :: y in b <==> y in S && Descends(S, m.slaves[i], y)
    requires forall y :: y in f <==> y in S && UnderSlave(S, m, i + 1, y)
    ensures NoDup([m.slaves[i]] + b + f)
    ensures forall y :: y in [m.slaves[i]] + b + f <==> y in S && UnderSlave(S, m, i, y)
  {
    var s := m.slaves[i];
    forall y | y in S ensures UnderSlave(S, m, i, y) <==> y == s || y in b || y in f {
      if y == s || y in b { assert Under(S, m.slaves[i], y); }
      if y in f { var j :| i + 1 <= j < |m.slaves| && Under(S, m.slaves[j], y); }
      if UnderSlave(S, m, i, y) {
        var j :| i <= j < |m.slaves| && Under(S, m.slaves[j], y);
        if j > i { assert UnderSlave(S, m, i + 1, y); }
      }
    }
    assert s !in b by { if s in b { DescendsRank(S, s, s); assert false; } }
    NoDupAppend([s], b);
    forall y | y in [s] + b ensures y !in f {
      if y in f {
        var j :| i + 1 <= j < |m.slaves| && Under(S, m.slaves[j], y);
        assert m.slaves[j] in m.slaves && m.slaves[i] in m.slaves;
        SiblingsApart(S, m, s, m.slaves[j], y);
        assert false;
      }
    }
    NoDupAppend([s] + b, f);
  }

  /** `y` is under a peer that the walk meets after `m` and before it is back at `origin`. */
  ghost predicate UnderLaterPeer(S: set<Mount>, m: Mount, origin: Mount, y: Mount)
    requires Closed(S) && RingsClosed(S) && Ranked(S) && origin in S && m in origin.ring && y in S
    reads S`next, S`prev, S`master, S`slaves, S`ring, S`rank, S`isNew
  {
    exists p {:trigger Under(S, p, y)} :: p in S && p in origin.ring && StepsTo(p, origin) < StepsTo(m, origin) && Under(S, p, y)
  }

  lemma SameSteps(S: set<Mount>, p: Mount, q: Mount, origin: Mount)
    requires Closed(S) && RingsClosed(S) && origin in S && p in origin.ring && q in origin.ring
    requires StepsTo(p, origin) == StepsTo(q, origin)
    ensures p == q
  {
    assert p.ring == origin.ring && q.ring == origin.ring;
  }

  /** What is left on the ring after `m` is exactly what is under the later peers, each once. */
  lemma RestContents(S: set<Mount>, top: int, m: Mount, origin: Mount)
    requires WellFormed(S) && RankedBelow(S, top) && origin in S && m in S && m in origin.ring && Receives(S, origin, m)
    ensures forall y :: y in Rest(S, top, m, origin) <==> y in S && UnderLaterPeer(S, m, origin, y)
    ensures NoDup(Rest(S, top, m, origin))
    decreases StepsTo(m, origin)
  {
    if m.next == origin {
      LastStep(S, m, origin);
    } else {
      StepDown(S, m, origin);
      BelowContents(S, top, m.next);
      RestContents(S, top, m.next, origin);
      RestStep(S, m, origin, Below(S, top, m.next), Rest(S, top, m.next, origin));
    }
  }

  lemma LastStep(S: set<Mount>, m: Mount, origin: Mount)
    requires Closed(S) && RingsClosed(S) && origin in S && m in S && m in origin.ring && m.next == origin
    ensures StepsTo(m, origin) == 1
  {
    var k := IndexOf(m.ring, m);
    assert m.ring[k].next == m.ring[Succ(k, |m.ring|)];
    NoDupIndex(m.ring, Succ(k, |m.ring|));
  }

  lemma RestStep(S: set<Mount>, m: Mount, origin: Mount, b: seq<Mount>, f: seq<Mount>)
    requires WellFormed(S) && origin in S && m in S && m in origin.ring && m.next != origin && NoDup(b) && NoDup(f)
    requires m.next in S && m.next in origin.ring && StepsTo(m.next, origin) == StepsTo(m, origin) - 1
    requires forall y :: y in b <==> y in S && Descends(S, m.next, y)
    requires forall y :: y in f <==> y in S && UnderLaterPeer(S, m.next, origin, y)
    ensures NoDup([m.next] + b + f)
    ensures forall y :: y in [m.next] + b + f <==> y in S && UnderLaterPeer(S, m, origin, y)
  {
    hide Contiguous, SlavesMatch, NoDup, Closes, Descends;
    var n := m.next;
    forall y | y in S ensures UnderLaterPeer(S, m, origin, y) <==> y == n || y in b || y in f {
      if y == n || y in b { assert Under(S, n, y); }
      if UnderLaterPeer(S, m, origin, y) {
        var p :| p in S && p in origin.ring && StepsTo(p, origin) < StepsTo(m, origin) && Under(S, p, y);
        if StepsTo(p, origin) == StepsTo(n, origin) { SameSteps(S, p, n, origin); }
      }
    }
    assert n !in b by { if n in b { DescendsRank(S, n, n); assert false; } }
    NoDupAppend([n], b);
    forall y | y in [n] + b ensures y !in f {
      if y in f {
        var p :| p in S && p in origin.ring && StepsTo(p, origin) < StepsTo(n, origin) && Under(S, p, y);
        assert p.rank == origin.rank == n.rank;
        PeersApart(S, n, p, y);
        assert false;
      }
    }
    NoDupAppend([n] + b, f);
  }

  /** Mount events on `origin` reach `y` through mounts that are no longer new. */
  ghost predicate Reached(S: set<Mount>, origin: Mount, y: Mount)
    requires Closed(S) && Ranked(S) && origin in S && y in S
    reads S`next, S`prev, S`master, S`slaves, S`ring, S`rank, S`isNew
    decreases y.rank
  {
    y in origin.ring || (y.master != null && !y.master.isNew && Reached(S, origin, y.master))
  }

  lemma ReachedByPeer(S: set<Mount>, origin: Mount, y: Mount)
    requires Closed(S) && Ranked(S) && origin in S && y in S
    ensures Reached(S, origin, y) <==> exists p {:trigger Under(S, p, y)} :: p in S && p in origin.ring && Under(S, p, y)
    decreases y.rank
  {
    if y.master != null {
      assert y.master.rank < y.rank;
      ReachedByPeer(S, origin, y.master);
    }
    if Reached(S, origin, y) {
      if y in origin.ring {
        assert Under(S, y, y);
      } else {
        var p :| p in S && p in origin.ring && Under(S, p, y.master);
        assert Under(S, p, y);
      }
    }
    if p :| p in S && p in origin.ring && Under(S, p, y) && y != p {
      assert Under(S, p, y.master);
    }
  }

  lemma WithoutNewMounts(S: set<Mount>, origin: Mount, y: Mount)
    requires Closed(S) && Ranked(S) && origin in S && y in S && forall m :: m in S ==> !m.isNew
    ensures Reached(S, origin, y) == Receives(S, origin, y)
    decreases y.rank
  {
    if y.master != null { assert y.master.rank < y.rank; WithoutNewMounts(S, origin, y.master); }
  }

  lemma OriginApart(S: set<Mount>, origin: Mount, y: Mount)
    requires WellFormed(S) && origin in S && y in S && Descends(S, origin, y)
    ensures !UnderLaterPeer(S, origin, origin, y)
  {
    if UnderLaterPeer(S, origin, origin, y) {
      var p :| p in S && p in origin.ring && StepsTo(p, origin) < StepsTo(origin, origin) && Under(S, p, y);
      PeersApart(S, origin, p, y);
      assert false;
    }
  }

  /** The whole walk: every mount that hears `origin`, other than itself, exactly once, with no visited set. */
  lemma WalkMeetsAllOnce(S: set<Mount>, top: int, origin: Mount)
    requires WellFormed(S) && RankedBelow(S, top) && origin in S && origin in origin.ring && Receives(S, origin, origin)
    ensures NoDup(After(S, top, origin, origin))
    ensures forall y :: y in After(S, top, origin, origin) <==> y in S && y != origin && Reached(S, origin, y)
  {
    hide RingsClosed, PeersAgree, SlavesMatch, Contiguous, NoDup, Descends, Reached, UnderLaterPeer, Receives;
    var b, f := Below(S, top, origin), Rest(S, top, origin, origin);
    BelowContents(S, top, origin);
    RestContents(S, top, origin, origin);
    forall y | y in S ensures y in b || y in f <==> y != origin && Reached(S, origin, y) {
      OriginOrLater(S, origin, y);
    }
    forall y | y in b ensures y !in f {
      OriginApart(S, origin, y);
    }
    NoDupAppend(b, f);
  }

  lemma OriginOrLater(S: set<Mount>, origin: Mount, y: Mount)
    requires WellFormed(S) && origin in S && y in S
    ensures y != origin && Reached(S, origin, y) <==> Descends(S, origin, y) || UnderLaterPeer(S, origin, origin, y)
  {
    ReachedByPeer(S, origin, y);
    if y != origin && Reached(S, origin, y) {
      var p :| p in S && p in origin.ring && Under(S, p, y);
      assert p.ring == origin.ring;
      if StepsTo(p, origin) == StepsTo(origin, origin) { SameSteps(S, p, origin, origin); }
    }
    if Descends(S, origin, y) {
      DescendsRank(S, origin, y);
      assert Under(S, origin, y);
    }
    if UnderLaterPeer(S, origin, origin, y) {
      var p :| p in S && p in origin.ring && StepsTo(p, origin) < StepsTo(origin, origin) && Under(S, p, y);
      if y == origin { PeersApart(S, origin, p, y); assert false; }
    }
  }
}
