/** The operations that change the propagation graph: leaving a peer group, changing the type, cloning. */
module PropagationOps {
  import opened Lists
  import opened Propagation

  /** The place `t` steps after `k` on a ring of `n`. */
  function Around(k: nat, t: nat, n: nat): nat
    requires k < n && t <= n
    ensures Around(k, t, n) < n
  {
    if k + t < n then k + t else k + t - n
  }

  lemma AroundSucc(k: nat, t: nat, n: nat)
    requires k < n && t < n
    ensures Succ(Around(k, t, n), n) == Around(k, t + 1, n)
  {
  }

  /** Stepping from `m`, `t` places after `mnt` on its ring. */
  lemma NextPeer(S: set<Mount>, mnt: Mount, t: nat, m: Mount)
    requires Closed(S) && RingsClosed(S) && mnt in S && t < |mnt.ring|
    requires m == mnt.ring[Around(IndexOf(mnt.ring, mnt), t, |mnt.ring|)]
    ensures m in S && m.next == mnt.ring[Around(IndexOf(mnt.ring, mnt), t + 1, |mnt.ring|)]
  {
    var r := mnt.ring;
    var k := IndexOf(r, mnt);
    AroundSucc(k, t, |r|);
    assert r[Around(k, t, |r|)] in r;
    assert r[Around(k, t, |r|)].next == r[Succ(Around(k, t, |r|), |r|)];
  }

  /** A peer with the root of `mnt` if there is one, and otherwise the next peer. */
  ghost predicate PreferredPeer(S: set<Mount>, mnt: Mount, to: Mount)
    reads S, mnt, to
  {
    && to in mnt.ring && to != mnt
    && (to.root != mnt.root ==> to == mnt.next && forall p :: p in S && p in mnt.ring && p != mnt ==> p.root != mnt.root)
  }

  lemma BackHome(S: set<Mount>, mnt: Mount, t: nat)
    requires Closed(S) && RingsClosed(S) && mnt in S && 1 <= t <= |mnt.ring|
    ensures mnt.ring[Around(IndexOf(mnt.ring, mnt), t, |mnt.ring|)] == mnt <==> t == |mnt.ring|
  {
    assert mnt in mnt.ring && NoDup(mnt.ring);
  }

  /** Once around the ring, every other peer has been looked at. */
  lemma AllSeen(S: set<Mount>, mnt: Mount, p: Mount) returns (u: nat)
    requires Closed(S) && RingsClosed(S) && mnt in S && p in mnt.ring && p != mnt
    ensures 1 <= u < |mnt.ring| && mnt.ring[Around(IndexOf(mnt.ring, mnt), u, |mnt.ring|)] == p
  {
    var j, k := IndexOf(mnt.ring, p), IndexOf(mnt.ring, mnt);
    u := if j > k then j - k else j - k + |mnt.ring|;
  }

  lemma RingMembers(S: set<Mount>, mnt: Mount)
    requires Closed(S) && RingsClosed(S) && mnt in S
    ensures mnt in mnt.ring && forall p :: p in mnt.ring ==> p in S
  {
  }

  /** The loop of do_make_slave that looks for a peer to be slaved to. */
  method FindPeer(ghost S: set<Mount>, mnt: Mount) returns (to: Mount)
    requires Closed(S) && RingsClosed(S) && mnt in S && mnt.next != mnt
    ensures PreferredPeer(S, mnt, to)
  {
    hide Closed, RingsClosed, IndexOf;
    RingMembers(S, mnt);
    ghost var r := mnt.ring;
    ghost var k := IndexOf(r, mnt);
    NextPeer(S, mnt, 0, mnt);
    to := mnt.next;
    var m := mnt.next;
    ghost var t := 1;
    while m != mnt
      invariant Closed(S) && RingsClosed(S)
      invariant 1 <= t <= |r| && m == r[Around(k, t, |r|)]
      invariant forall u {:trigger Around(k, u, |r|)} :: 1 <= u < t ==> r[Around(k, u, |r|)].root != mnt.root
      decreases |r| - t
    {
      BackHome(S, mnt, t);
      if m.root == mnt.root { return m; }
      NextPeer(S, mnt, t, m);
      m := m.next;
      t := t + 1;
    }
    BackHome(S, mnt, t);
    forall p | p in S && p in mnt.ring && p != mnt ensures p.root != mnt.root {
      var u := AllSeen(S, mnt, p);
    }
  }

  /** list_del_init(&mnt->mnt_share), and the group id and MNT_SHARED are gone. */
  method Unlink(ghost S: set<Mount>, mnt: Mount)
    requires Closed(S) && RingsClosed(S) && mnt in S
    modifies S`next, S`prev, S`ring, mnt`group, mnt`shared
    ensures Unlinked(S, mnt)
    ensures mnt.group == 0 && !mnt.shared
  {
    var next, prev := mnt.next, mnt.prev;
    ghost var r := mnt.ring;
    next.prev := prev;
    prev.next := next;
    mnt.next := mnt;
    mnt.prev := mnt;
    mnt.group := 0;
    mnt.shared := false;
    forall m | m in S && m in r { m.ring := if m == mnt then [mnt] else Remove(r, mnt); }
  }

  /** The slaves of `mnt` and `mnt` itself go to `to`: the tail of do_make_slave. */
  method Enslave(ghost S: set<Mount>, mnt: Mount, to: Mount)
    requires mnt in S && to in S && to != mnt && mnt !in mnt.slaves
    requires (mnt.master == null || mnt.master in S) && forall s :: s in mnt.slaves ==> s in S
    modifies S`master, S`slaves
    ensures forall m {:trigger m.master} :: m in S ==>
      m.master == if m == mnt || m in old(mnt.slaves) then to else old(m.master)
    ensures forall m {:trigger m.slaves} :: m in S ==> m.slaves == SlavesAfter(m, old(m.slaves), mnt, old(mnt.slaves), old(mnt.master), to)
  {
    var own, upper := mnt.slaves, mnt.master;
    for i := 0 to |own|
      invariant forall m {:trigger m.slaves} :: m in S ==> m.slaves == old(m.slaves)
      invariant forall m {:trigger m.master} :: m in S ==>
        m.master == if m in own[..i] then to else old(m.master)
    {
      assert own[i] in own;
      own[i].master := to;
      assert own[..i + 1] == own[..i] + [own[i]];
    }
    assert own[..|own|] == own;
    if upper != null { upper.slaves := Remove(upper.slaves, mnt); }
    to.slaves := [mnt] + to.slaves;
    to.slaves := to.slaves + mnt.slaves;
    mnt.slaves := [];
    mnt.master := to;
  }

  /** The slaves of a mount that has neither peers nor a master lose theirs. */
  method FreeSlaves(ghost S: set<Mount>, mnt: Mount)
    requires mnt in S && mnt !in mnt.slaves && forall s :: s in mnt.slaves ==> s in S
    modifies S`master, mnt`slaves
    ensures mnt.slaves == []
    ensures forall m {:trigger m.master} :: m in S ==>
      m.master == if m in old(mnt.slaves) then null else old(m.master)
  {
    ghost var k := 0;
    while mnt.slaves != []
      invariant k <= |old(mnt.slaves)| && mnt.slaves == old(mnt.slaves)[k..]
      invariant forall m {:trigger m.master} :: m in S ==>
        m.master == if m in old(mnt.slaves)[..k] then null else old(m.master)
      decreases |mnt.slaves|
    {
      var s := mnt.slaves[0];
      assert s in old(mnt.slaves);
      mnt.slaves := mnt.slaves[1..];
      s.master := null;
      assert old(mnt.slaves)[..k + 1] == old(mnt.slaves)[..k] + [s];
      k := k + 1;
    }
    assert old(mnt.slaves)[..k] == old(mnt.slaves);
  }

  /** What do_make_slave promises: the new links, and the mount it chose as master. */
  twostate predicate MadeSlave(S: set<Mount>, mnt: Mount, to: Mount?)
    requires mnt in S
    reads S
  {
    if to == null
    then old(mnt.ring == [mnt] && mnt.master == null) && Freed(S, mnt)
    else
      && to in S && old(Target(Slaving(S, mnt, to))) && Unlinked(S, mnt) && Slaved(S, mnt, to)
      && old(if mnt.next == mnt then mnt.master == to else PreferredPeer(S, mnt, to))
  }

  /** A mount alone on its ring is its own neighbour, and the other way round. */
  lemma AloneIffSelfLinked(S: set<Mount>, mnt: Mount)
    requires Closed(S) && RingsClosed(S) && mnt in S
    ensures mnt.next == mnt <==> mnt.ring == [mnt]
    ensures mnt.prev == mnt <==> mnt.ring == [mnt]
  {
    var k := IndexOf(mnt.ring, mnt);
    assert mnt.ring[k].next == mnt.ring[Succ(k, |mnt.ring|)];
    assert mnt.next == mnt <==> mnt.prev == mnt;
  }

  lemma SlavesElsewhere(S: set<Mount>, mnt: Mount)
    requires WellFormed(S) && mnt in S
    ensures mnt !in mnt.slaves && (mnt.master == null || mnt.master in S) && mnt.master != mnt
    ensures forall s :: s in mnt.slaves ==> s in S
    ensures forall p :: p in mnt.ring ==> p in S
  {
    assert mnt.master != mnt by { assert 0 <= mnt.rank; }
  }

  /** The first half of do_make_slave for a mount that has peers: choose one and leave the group. */
  method LeaveGroup(ghost S: set<Mount>, mnt: Mount) returns (to: Mount)
    requires Closed(S) && RingsClosed(S) && mnt in S && mnt.next != mnt
    modifies S`next, S`prev, S`ring, mnt`group, mnt`shared
    ensures to in S && to != mnt
    ensures old(PreferredPeer(S, mnt, to))
    ensures Unlinked(S, mnt)
    ensures mnt.group == 0 && !mnt.shared
  {
    hide Closed, RingsClosed, Remove;
    RingMembers(S, mnt);
    to := FindPeer(S, mnt);
    assert PreferredPeer(S, mnt, to);
    Unlink(S, mnt);
    assert Unlinked(S, mnt);
  }

  /** The second half: everything is handed to `to`. */
  method SlaveTo(ghost S: set<Mount>, mnt: Mount, to: Mount)
    requires mnt in S && to in S && to != mnt && mnt !in mnt.slaves && !mnt.shared
    requires (mnt.master == null || mnt.master in S) && forall s :: s in mnt.slaves ==> s in S
    modifies S`master, S`slaves, mnt`rank
    ensures forall m {:trigger m.master} :: m in S ==>
      m.master == if m == mnt || m in old(mnt.slaves) then to else old(m.master)
    ensures forall m {:trigger m.slaves} :: m in S ==>
      m.slaves == SlavesAfter(m, old(m.slaves), mnt, old(mnt.slaves), old(mnt.master), to)
    ensures forall m {:trigger m.rank} :: m in S ==> m.rank == old(if m == mnt then to.rank + 1 else m.rank)
  {
    hide SlavesAfter;
    Enslave(S, mnt, to);
    mnt.rank := to.rank + 1;
  }

  method SlaveToPeer(ghost S: set<Mount>, mnt: Mount) returns (to: Mount)
    requires WellFormed(S) && mnt in S && mnt.next != mnt
    modifies S`next, S`prev, S`ring, S`master, S`slaves, S`group, S`shared, S`rank
    ensures to in S && to != mnt
    ensures old(PreferredPeer(S, mnt, to))
    ensures Unlinked(S, mnt)
    ensures Slaved(S, mnt, to)
  {
    hide Closed, RingsClosed, PeersAgree, SlavesMatch, Contiguous, Ranked, SlavesAfter, Remove, Unlinked, PreferredPeer;
    SlavesElsewhere(S, mnt);
    to := LeaveGroup(S, mnt);
    SlaveTo(S, mnt, to);
    assert Slaved(S, mnt, to);
  }

  /** Both branches for a mount without peers give up its group id if it is shared. */
  method Unshare(mnt: Mount)
    modifies mnt`group, mnt`shared
    ensures !mnt.shared && mnt.group == if old(mnt.shared) then 0 else old(mnt.group)
  {
    if mnt.shared {
      mnt.group := 0;
      mnt.shared := false;
    }
  }

  method SlaveToMaster(ghost S: set<Mount>, mnt: Mount)
    requires WellFormed(S) && mnt in S && mnt.next == mnt && mnt.prev == mnt && mnt.ring == [mnt] && mnt.master != null
    modifies S`master, S`slaves, S`group, S`shared, S`rank
    ensures old(mnt.master) in S
    ensures Unlinked(S, mnt)
    ensures Slaved(S, mnt, old(mnt.master))
  {
    hide Closed, RingsClosed, PeersAgree, SlavesMatch, Contiguous, Ranked, SlavesAfter, Remove;
    SlavesElsewhere(S, mnt);
    Unshare(mnt);
    SlaveTo(S, mnt, mnt.master);
  }

  method FreeAll(ghost S: set<Mount>, mnt: Mount)
    requires WellFormed(S) && mnt in S
    modifies S`master, S`slaves, S`group, S`shared
    ensures Freed(S, mnt)
  {
    hide Closed, RingsClosed, PeersAgree, SlavesMatch, Contiguous, Ranked;
    SlavesElsewhere(S, mnt);
    Unshare(mnt);
    FreeSlaves(S, mnt);
  }

  method DoMakeSlave(ghost S: set<Mount>, mnt: Mount) returns (ghost to: Mount?)
    requires WellFormed(S) && mnt in S
    modifies S`next, S`prev, S`ring, S`master, S`slaves, S`group, S`shared, S`rank
    ensures to == null || to in S
    ensures WellFormed(S)
    ensures MadeSlave(S, mnt, to)
  {
    hide Closed, RingsClosed, PeersAgree, SlavesMatch, Contiguous, Ranked, Unlinked, Slaved, Freed;
    AloneIffSelfLinked(S, mnt);
    SlavesElsewhere(S, mnt);
    if mnt.next != mnt {
      to := SlaveToPeer(S, mnt);
      SlavedWellFormed(Slaving(S, mnt, to));
    } else if mnt.master == null {
      FreeAll(S, mnt);
      FreedWellFormed(Slaving(S, mnt, mnt));
      to := null;
    } else {
      to := mnt.master;
      SlaveToMaster(S, mnt);
      SlavedWellFormed(Slaving(S, mnt, to));
    }
  }

  // ---------------------------------------------------------------- changing the propagation type

  /** Which mounts other than `mnt` hear each other has not changed. */
  twostate predicate OthersHearTheSame(S: set<Mount>, mnt: Mount)
    requires old(WellFormed(S)) && WellFormed(S)
    reads S
  {
    forall x, y {:trigger Receives(S, x, y)} :: x in S && y in S && x != mnt && y != mnt ==>
      Receives(S, x, y) == old(Receives(S, x, y))
  }

  /** Nobody hears `mnt` any more. */
  ghost predicate Silent(S: set<Mount>, mnt: Mount)
    requires WellFormed(S) && mnt in S
    reads S
  {
    forall y {:trigger Receives(S, mnt, y)} :: y in S && y != mnt ==> !Receives(S, mnt, y)
  }

  twostate predicate HearsTheSame(S: set<Mount>, mnt: Mount)
    requires mnt in S && old(WellFormed(S)) && WellFormed(S)
    reads S
  {
    forall x {:trigger Receives(S, x, mnt)} :: x in S && x != mnt ==> Receives(S, x, mnt) == old(Receives(S, x, mnt))
  }

  /** What do_make_slave has done: `mnt` is slaved to `to`, or to nobody. */
  datatype SlavedTo = SlavedTo(S: set<Mount>, mnt: Mount, to: Mount?)

  twostate lemma MadeSlaveReception(a: SlavedTo)
    requires a.mnt in a.S && old(WellFormed(a.S))
    requires WellFormed(a.S)
    requires MadeSlave(a.S, a.mnt, a.to)
    ensures OthersHearTheSame(a.S, a.mnt)
    ensures HearsTheSame(a.S, a.mnt)
    ensures Silent(a.S, a.mnt)
  {
    hide RingsClosed, PeersAgree, SlavesMatch, Contiguous, Unlinked, Slaved, Freed, Receives;
    var S, mnt := a.S, a.mnt;
    if a.to == null {
      forall x, y | x in S && y in S && x != mnt ensures Receives(S, x, y) == old(Receives(S, x, y)) {
        FreedReception(SlavingPair(Slaving(S, mnt, mnt), x, y));
      }
      forall y | y in S && y != mnt ensures !Receives(S, mnt, y) {
        FreedSilent(SlavingAt(Slaving(S, mnt, mnt), y));
      }
    } else {
      var s := Slaving(S, mnt, a.to);
      forall x, y | x in S && y in S && x != mnt ensures Receives(S, x, y) == old(Receives(S, x, y)) {
        SlavedReception(SlavingPair(s, x, y));
      }
      forall y | y in S && y != mnt ensures !Receives(S, mnt, y) {
        SlavedSendsNothing(SlavingAt(s, y));
      }
    }
  }

  datatype PropagationType = Shared | Slave | Private | Unbindable

  /** list_del_init(&mnt->mnt_slave) and mnt_master = NULL. */
  method DropMaster(ghost S: set<Mount>, mnt: Mount)
    requires mnt in S && (mnt.master == null || mnt.master in S)
    modifies S`master, S`slaves
    ensures Orphaned(S, mnt)
  {
    var upper := mnt.master;
    if upper != null { upper.slaves := Remove(upper.slaves, mnt); }
    mnt.master := null;
  }

  twostate lemma LoneAfterSlaving(a: SlavedTo)
    requires a.mnt in a.S && MadeSlave(a.S, a.mnt, a.to)
    ensures a.mnt.ring == [a.mnt] && a.mnt.slaves == [] && !a.mnt.shared
  {
  }

  /** `mnt` hears nobody. */
  ghost predicate Deaf(S: set<Mount>, mnt: Mount)
    requires WellFormed(S) && mnt in S
    reads S
  {
    forall x {:trigger Receives(S, x, mnt)} :: x in S && x != mnt ==> !Receives(S, x, mnt)
  }

  twostate lemma OrphanReception(a: InSet)
    requires a.m in a.S && old(WellFormed(a.S)) && old(a.m.ring == [a.m] && a.m.slaves == []) && Orphaned(a.S, a.m)
    requires WellFormed(a.S)
    ensures OthersHearTheSame(a.S, a.m)
    ensures Deaf(a.S, a.m)
    ensures old(Silent(a.S, a.m)) ==> Silent(a.S, a.m)
  {
    hide RingsClosed, PeersAgree, SlavesMatch, Contiguous, Orphaned, Receives;
    var S, mnt := a.S, a.m;
    forall x, y | x in S && y in S
      ensures Receives(S, x, y) == if y == mnt then x == mnt else old(Receives(S, x, y))
    {
      OrphanedReception(SlavingPair(Slaving(S, mnt, mnt), x, y));
    }
  }

  /** Only the MNT_SHARED flag of `mnt` differs. */
  twostate predicate Reflagged(S: set<Mount>, mnt: Mount)
    reads S
  {
    && SameRings(S)
    && (forall m {:trigger m.master} :: m in S ==> m.master == old(m.master))
    && (forall m {:trigger m.slaves} :: m in S ==> m.slaves == old(m.slaves))
    && (forall m {:trigger m.group} :: m in S ==> m.group == old(m.group))
    && (forall m {:trigger m.shared} :: m in S && m != mnt ==> m.shared == old(m.shared))
  }

  twostate lemma ReflaggedWellFormed(a: InSet)
    requires a.m in a.S && old(WellFormed(a.S)) && Reflagged(a.S, a.m) && a.m.group != 0
    ensures WellFormed(a.S)
  {
    hide Infix, NoDup;
    assert Closed(a.S);
    RingsStay(a.S);
  }

  /** A mount with a new flag, seen from a pair of mounts. */
  datatype ReflaggedPair = ReflaggedPair(S: set<Mount>, mnt: Mount, x: Mount, y: Mount)

  twostate lemma ReflaggedReception(a: ReflaggedPair)
    requires a.mnt in a.S && a.x in a.S && a.y in a.S && old(WellFormed(a.S)) && Reflagged(a.S, a.mnt)
    requires WellFormed(a.S)
    ensures Receives(a.S, a.x, a.y) == old(Receives(a.S, a.x, a.y))
    decreases a.y.rank
  {
    hide RingsClosed, PeersAgree, SlavesMatch, Contiguous;
    if a.y.master != null { ReflaggedReception(a.(y := a.y.master)); }
  }

  /** set_mnt_shared, as change_mnt_propagation uses it. */
  method SetShared(ghost S: set<Mount>, mnt: Mount)
    requires WellFormed(S) && mnt in S && mnt.group != 0
    modifies mnt`shared, mnt`unbindable
    ensures WellFormed(S)
    ensures OthersHearTheSame(S, mnt) && HearsTheSame(S, mnt)
    ensures mnt.shared && !mnt.unbindable
  {
    hide Closed, RingsClosed, PeersAgree, SlavesMatch, Contiguous, Ranked, Receives;
    mnt.unbindable := false;
    mnt.shared := true;
    ReflaggedWellFormed(InSet(S, mnt));
    forall x, y | x in S && y in S ensures Receives(S, x, y) == old(Receives(S, x, y)) {
      ReflaggedReception(ReflaggedPair(S, mnt, x, y));
    }
  }

  /** The part of change_mnt_propagation that private and unbindable add to do_make_slave. */
  method Isolate(ghost S: set<Mount>, mnt: Mount, unbindable: bool)
    requires WellFormed(S) && mnt in S && mnt.ring == [mnt] && mnt.slaves == [] && Silent(S, mnt)
    modifies S`master, S`slaves, mnt`unbindable
    ensures WellFormed(S)
    ensures OthersHearTheSame(S, mnt) && Silent(S, mnt) && Deaf(S, mnt)
    ensures mnt.unbindable == unbindable
  {
    hide Closed, RingsClosed, PeersAgree, SlavesMatch, Contiguous, Ranked, Receives;
    SlavesElsewhere(S, mnt);
    DropMaster(S, mnt);
    mnt.unbindable := unbindable;
    assert Orphaned(S, mnt);
    OrphanedWellFormed(Slaving(S, mnt, mnt));
    OrphanReception(InSet(S, mnt));
  }

  /**
   change_mnt_propagation: the graph stays well formed, no other pair of mounts notices,
   and `mnt` keeps, loses its listeners, or loses everyone, as the type says.
   */
  method ChangePropagation(ghost S: set<Mount>, mnt: Mount, kind: PropagationType)
    requires WellFormed(S) && mnt in S
    requires kind == Shared ==> mnt.group != 0
    modifies S`next, S`prev, S`ring, S`master, S`slaves, S`group, S`shared, S`rank, mnt`unbindable
    ensures WellFormed(S)
    ensures OthersHearTheSame(S, mnt)
    ensures kind == Shared ==> mnt.shared && !mnt.unbindable
    ensures kind in {Shared, Slave} ==> HearsTheSame(S, mnt)
    ensures kind != Shared ==> !mnt.shared && Silent(S, mnt)
    ensures kind in {Private, Unbindable} ==> Deaf(S, mnt) && mnt.unbindable == (kind == Unbindable)
  {
    hide Closed, RingsClosed, PeersAgree, SlavesMatch, Contiguous, Ranked, Receives, MadeSlave;
    if kind == Shared {
      SetShared(S, mnt);
      return;
    }
    ghost var to := DoMakeSlave(S, mnt);
    MadeSlaveReception(SlavedTo(S, mnt, to));
    LoneAfterSlaving(SlavedTo(S, mnt, to));
    if kind != Slave {
      Isolate(S, mnt, kind == Unbindable);
    }
  }
}
