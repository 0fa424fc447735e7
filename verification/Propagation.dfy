/**
 The propagation graph of mounts: peer groups are unanchored circular lists, every
 mount anchors a list of its slaves, and every slave points back to its master.
 */
module Propagation {
  import opened Lists

  type Dentry = int

  /** The part of `struct mount` that propagation works on. */
  class Mount {
    var next: Mount         // mnt_share.next
    var prev: Mount         // mnt_share.prev
    var slaves: seq<Mount>  // mnt_slave_list, threaded through mnt_slave
    var master: Mount?      // mnt_master
    var group: int          // mnt_group_id, 0 for none
    var shared: bool        // MNT_SHARED
    var unbindable: bool    // MNT_UNBINDABLE
    var isNew: bool         // no namespace yet
    var root: Dentry        // mnt.mnt_root
    var parent: Mount       // mnt_parent, itself for the root of a tree
    var mountpoint: Dentry  // mnt_mountpoint
    var mounts: seq<Mount>  // mnt_mounts, threaded through mnt_child
    var umount: bool        // MNT_UMOUNT
    var marked: bool        // MNT_MARKED
    var locked: bool        // MNT_LOCKED
    ghost var ring: seq<Mount>  // the peers, in list order
    ghost var rank: int         // grows from master to slave
    ghost var depth: int        // grows from parent to child

    constructor (root: Dentry)
      ensures next == this && prev == this && slaves == [] && master == null
      ensures group == 0 && !shared && !unbindable && isNew && this.root == root
      ensures parent == this && mountpoint == root && mounts == [] && !umount && !marked && !locked
      ensures ring == [this] && rank == 0 && depth == 0
    {
      next, prev, slaves, master := this, this, [], null;
      group, shared, unbindable, isNew, this.root := 0, false, false, true, root;
      parent, mountpoint, mounts, umount, marked, locked := this, root, [], false, false, false;
      ring, rank, depth := [this], 0, 0;
    }
  }

  /** No link leaves the set of mounts. */
  ghost predicate Closed(S: set<Mount>)
    reads S`next, S`prev, S`master, S`slaves, S`ring
  {
    && (forall m {:trigger m.next} :: m in S ==> m.next in S)
    && (forall m {:trigger m.prev} :: m in S ==> m.prev in S)
    && (forall m {:trigger m.master} :: m in S && m.master != null ==> m.master in S)
    && (forall m, s {:trigger s in m.slaves} :: m in S && s in m.slaves ==> s in S)
    && (forall m, p {:trigger p in m.ring} :: m in S && p in m.ring ==> p in S)
  }

  /** The place after `i` on a ring of `n`. */
  function Succ(i: nat, n: nat): nat { if i + 1 < n then i + 1 else 0 }

  /** Following `next` runs once around `r` and closes. */
  ghost predicate Closes(r: seq<Mount>)
    reads (set m | m in r)`next
  {
    forall i {:trigger r[i].next} :: 0 <= i < |r| ==> r[i].next == r[Succ(i, |r|)]
  }

  /** Every mount is on exactly one ring, which closes, and whose backward links undo the forward ones. */
  ghost predicate RingsClosed(S: set<Mount>)
    requires Closed(S)
    reads S`next, S`prev, S`master, S`slaves, S`ring
  {
    && (forall m :: m in S ==> m in m.ring && NoDup(m.ring) && Closes(m.ring))
    && (forall m, p {:trigger p in m.ring} :: m in S && p in m.ring ==> p.ring == m.ring)
    && (forall m, p {:trigger m.next, p.prev} :: m in S && p in S ==> (m.next == p <==> p.prev == m))
  }

  /** One group id and one master per ring; only a mount with a group id has peers or is shared; ids tell rings apart. */
  ghost predicate PeersAgree(S: set<Mount>)
    requires Closed(S)
    reads S`next, S`prev, S`master, S`slaves, S`ring, S`group, S`shared, S`rank
  {
    && (forall m, p {:trigger p in m.ring} :: m in S && p in m.ring ==>
         p.group == m.group && p.master == m.master && p.rank == m.rank)
    && (forall m :: m in S && m.group == 0 ==> m.ring == [m] && !m.shared)
    && (forall m, p :: m in S && p in S && m.group == p.group != 0 ==> p in m.ring)
  }

  ghost predicate SlavesMatch(S: set<Mount>)
    requires Closed(S)
    reads S`next, S`prev, S`master, S`slaves, S`ring
  {
    && (forall m :: m in S ==> NoDup(m.slaves))
    && (forall m, s {:trigger s in m.slaves} :: m in S && s in S ==> (s in m.slaves <==> s.master == m))
  }

  /** The peers among the slaves of a mount stand next to each other, in the order of their ring. */
  ghost predicate Contiguous(S: set<Mount>)
    requires Closed(S)
    reads S`next, S`prev, S`master, S`slaves, S`ring
  {
    forall s {:trigger s.master} :: s in S && s.master != null ==> Infix(s.ring, s.master.slaves)
  }

  /** Following masters cannot come back. */
  ghost predicate Ranked(S: set<Mount>)
    requires Closed(S)
    reads S`next, S`prev, S`master, S`slaves, S`ring, S`rank
  {
    forall s {:trigger s.rank} :: s in S ==> 0 <= s.rank && (s.master != null ==> s.master.rank < s.rank)
  }

  ghost predicate WellFormed(S: set<Mount>)
    reads S`next, S`prev, S`master, S`slaves, S`ring, S`group, S`shared, S`rank
  {
    Closed(S) && RingsClosed(S) && PeersAgree(S) && SlavesMatch(S) && Contiguous(S) && Ranked(S)
  }

  /** Mount events on `x` reach `y`: they are peers, or they reach the master of `y`. */
  ghost predicate Receives(S: set<Mount>, x: Mount, y: Mount)
    requires Closed(S) && Ranked(S) && x in S && y in S
    reads S`next, S`prev, S`master, S`slaves, S`ring, S`rank
    decreases y.rank
  {
    y in x.ring || (y.master != null && Receives(S, x, y.master))
  }

  // ---------------------------------------------------------------- leaving a group

  /** One application of do_make_slave among the mounts `S`: `mnt` is to be slaved to `to`. */
  datatype Slaving = Slaving(S: set<Mount>, mnt: Mount, to: Mount)

  /** The same, seen from a mount, and from a pair of mounts. */
  datatype SlavingAt = SlavingAt(a: Slaving, m: Mount)
  datatype SlavingPair = SlavingPair(a: Slaving, x: Mount, y: Mount)

  /** A mount among others. */
  datatype InSet = InSet(S: set<Mount>, m: Mount)

  /** Where do_make_slave sends `mnt`: another peer, or the master of a mount without peers. */
  ghost predicate Target(a: Slaving)
    reads a.mnt`ring, a.mnt`master
  {
    && a.mnt in a.S && a.to in a.S && a.to != a.mnt
    && (a.to in a.mnt.ring || (a.mnt.ring == [a.mnt] && a.mnt.master == a.to))
  }

  /**
   The slave list of `m` once `mnt` has been moved from the list of `upper` to the head of
   that of `to` and has handed over its own slaves.
   */
  ghost function SlavesAfter(m: Mount, slaves: seq<Mount>, mnt: Mount, own: seq<Mount>, upper: Mount?, to: Mount): seq<Mount>
  {
    var left := if m == upper then Remove(slaves, mnt) else slaves;
    if m == mnt then [] else if m == to then [mnt] + left + own else left
  }

  twostate predicate Unlinked(S: set<Mount>, mnt: Mount)
    requires mnt in S
    reads S`next, S`prev, S`ring
  {
    && (forall m {:trigger m.next} :: m in S ==>
         m.next == if m == mnt then mnt else if m == old(mnt.prev) then old(mnt.next) else old(m.next))
    && (forall m {:trigger m.prev} :: m in S ==>
         m.prev == if m == mnt then mnt else if m == old(mnt.next) then old(mnt.prev) else old(m.prev))
    && (forall m {:trigger m.ring} :: m in S ==>
         m.ring == old(if m == mnt then [mnt] else if m in mnt.ring then Remove(mnt.ring, mnt) else m.ring))
  }

  /** The state do_make_slave leaves behind when there is a mount to be slaved to. */
  twostate predicate Slaved(S: set<Mount>, mnt: Mount, to: Mount)
    requires mnt in S && to in S
    reads S`master, S`slaves, S`group, S`shared, S`rank
  {
    && (forall m {:trigger m.master} :: m in S ==>
         m.master == if m == mnt || m in old(mnt.slaves) then to else old(m.master))
    && (forall m {:trigger m.slaves} :: m in S ==> m.slaves == SlavesAfter(m, old(m.slaves), mnt, old(mnt.slaves), old(mnt.master), to))
    && (forall m {:trigger m.group} {:trigger m.shared} :: m in S && m != mnt ==>
         m.group == old(m.group) && m.shared == old(m.shared))
    && !mnt.shared && mnt.group == (if old(mnt.next) != mnt || old(mnt.shared) then 0 else old(mnt.group))
    && (forall m {:trigger m.rank} :: m in S ==> m.rank == old(if m == mnt then to.rank + 1 else m.rank))
  }

  /** Where the places of a ring move when place `k` is left out. */
  lemma BypassPlace<T>(r: seq<T>, before: nat, k: nat, i: nat)
    requires before < |r| && k == Succ(before, |r|) && i < |r| - 1
    ensures var q := r[..k] + r[k + 1..]; var j := if i < k then i else i + 1;
      q[i] == r[j] && q[Succ(i, |q|)] == r[Succ(if j == before then k else j, |r|)]
  {
  }

  lemma RemovePlaces<T>(r: seq<T>, x: T, k: nat)
    requires x in r && k == IndexOf(r, x)
    ensures Remove(r, x) == r[..k] + r[k + 1..]
  {
  }

  /** Taking one mount out of its ring closes the rest. */
  twostate lemma BypassCloses(a: Slaving)
    requires a.mnt in a.S && old(Closed(a.S)) && old(RingsClosed(a.S)) && Unlinked(a.S, a.mnt)
    ensures Closes(Remove(old(a.mnt.ring), a.mnt))
  {
    var mnt, r := a.mnt, old(a.mnt.ring);
    var k := IndexOf(r, mnt);
    var before := if k == 0 then |r| - 1 else k - 1;
    var q := Remove(r, mnt);
    assert old(r[before].next) == r[Succ(before, |r|)] == mnt;
    assert r[before] in r && old(mnt.prev) == r[before];
    assert old(mnt.next) == r[Succ(k, |r|)];
    hide Remove;
    RemovePlaces(r, mnt, k);
    forall i | 0 <= i < |q| ensures q[i].next == q[Succ(i, |q|)] {
      BypassPlace(r, before, k, i);
      var j := if i < k then i else i + 1;
      assert r[j] in r;
      assert old(r[j].next) == r[Succ(j, |r|)];
    }
  }

  /** A ring without `mnt` is not touched. */
  twostate lemma OthersClose(a: Slaving)
    requires a.mnt in a.S && a.to in a.S && old(Closed(a.S)) && old(RingsClosed(a.S)) && Unlinked(a.S, a.mnt)
    requires a.to !in old(a.mnt.ring)
    ensures Closes(old(a.to.ring))
  {
    var mnt, r := a.mnt, old(a.to.ring);
    assert mnt !in r;
    forall i | 0 <= i < |r| ensures r[i].next == r[Succ(i, |r|)] {
      assert r[i] in r && r[Succ(i, |r|)] in r;
      assert old(r[i].next) == r[Succ(i, |r|)];
      assert r[i] != old(mnt.prev);
    }
  }

  twostate lemma UnlinkInverse(a: Slaving)
    requires a.mnt in a.S && old(Closed(a.S)) && old(RingsClosed(a.S)) && Unlinked(a.S, a.mnt)
    ensures forall m, p {:trigger m.next, p.prev} :: m in a.S && p in a.S ==> (m.next == p <==> p.prev == m)
  {
    var mnt := a.mnt;
    forall m, p | m in a.S && p in a.S ensures m.next == p <==> p.prev == m {
      assert old(m.next) == p <==> old(p.prev) == m;
      assert old(m.next) == mnt <==> old(mnt.prev) == m;
      assert old(mnt.next) == p <==> old(p.prev) == mnt;
    }
  }

  twostate lemma RingAfter(a: Slaving)
    requires a.mnt in a.S && a.to in a.S && old(Closed(a.S)) && old(RingsClosed(a.S)) && Unlinked(a.S, a.mnt)
    ensures a.to in a.to.ring && NoDup(a.to.ring) && Closes(a.to.ring)
  {
    hide Remove;
    RemoveContents(old(a.mnt.ring), a.mnt);
    if a.to == a.mnt {
      assert a.mnt.ring == [a.mnt];
    } else if a.to in old(a.mnt.ring) {
      BypassCloses(a);
    } else {
      OthersClose(a);
    }
  }

  /** list_del_init on mnt_share keeps every ring closed. */
  twostate lemma UnlinkKeepsRings(a: Slaving)
    requires a.mnt in a.S && old(Closed(a.S)) && old(RingsClosed(a.S))
    requires Closed(a.S)
    requires Unlinked(a.S, a.mnt)
    ensures RingsClosed(a.S)
  {
    hide Closes, Remove, NoDup, IndexOf;
    UnlinkInverse(a);
    forall m | m in a.S ensures m in m.ring && NoDup(m.ring) && Closes(m.ring) {
      RingAfter(a.(to := m));
    }
    UnlinkSameRings(a);
  }

  twostate lemma UnlinkSameRings(a: Slaving)
    requires a.mnt in a.S && old(Closed(a.S)) && old(RingsClosed(a.S)) && Unlinked(a.S, a.mnt)
    ensures forall m, p {:trigger p in m.ring} :: m in a.S && p in m.ring ==> p in a.S && p.ring == m.ring
  {
    hide Closes, Remove, NoDup, IndexOf;
    RemoveContents(old(a.mnt.ring), a.mnt);
    forall m, p {:trigger p in m.ring} | m in a.S && p in m.ring ensures p in a.S && p.ring == m.ring {
      if m != a.mnt && m in old(a.mnt.ring) {
        assert p in old(a.mnt.ring) && p != a.mnt;
      } else if m != a.mnt {
        assert p in old(m.ring);
      }
    }
  }

  twostate lemma SlavedClosed(a: Slaving)
    requires old(Target(a)) && old(Closed(a.S)) && old(RingsClosed(a.S)) && old(SlavesMatch(a.S))
    requires Unlinked(a.S, a.mnt) && Slaved(a.S, a.mnt, a.to)
    ensures Closed(a.S)
  {
    hide Remove, NoDup, Closes;
    RemoveContents(old(a.mnt.ring), a.mnt);
    if old(a.mnt.master) != null { RemoveContents(old(a.mnt.master.slaves), a.mnt); }
  }

  twostate lemma SlavedIds(a: Slaving)
    requires old(Target(a)) && old(Closed(a.S)) && old(RingsClosed(a.S)) && old(PeersAgree(a.S))
    requires Unlinked(a.S, a.mnt) && Slaved(a.S, a.mnt, a.to)
    ensures forall m, p :: m in a.S && p in a.S && m.group == p.group != 0 ==> p in m.ring
    ensures forall m :: m in a.S && m.group == 0 ==> m.ring == [m] && !m.shared
  {
    hide Remove;
    RemoveContents(old(a.mnt.ring), a.mnt);
    forall m, p | m in a.S && p in a.S && m.group == p.group != 0 ensures p in m.ring {
      assert m != p ==> old(p in m.ring);
    }
  }

  twostate lemma SlavedPeers(a: Slaving)
    requires old(Target(a)) && old(WellFormed(a.S))
    requires Closed(a.S)
    requires Unlinked(a.S, a.mnt) && Slaved(a.S, a.mnt, a.to)
    ensures PeersAgree(a.S)
  {
    hide Contiguous, Remove, SlavesAfter;
    SlavedIds(a);
    RemoveContents(old(a.mnt.ring), a.mnt);
    forall m, p {:trigger p in m.ring} | m in a.S && p in m.ring
      ensures p.group == m.group && p.master == m.master && p.rank == m.rank
    {
      assert m != a.mnt ==> p in old(m.ring) && p != a.mnt;
    }
  }

  twostate lemma SlavedSlaves(a: Slaving)
    requires old(Target(a)) && old(WellFormed(a.S))
    requires Closed(a.S)
    requires Slaved(a.S, a.mnt, a.to)
    ensures SlavesMatch(a.S)
  {
    hide RingsClosed, Contiguous, Remove;
    var mnt, to := a.mnt, a.to;
    var own := old(mnt.slaves);
    if old(mnt.master) != null { RemoveContents(old(mnt.master.slaves), mnt); }
    var left := old(if to == mnt.master then Remove(to.slaves, mnt) else to.slaves);
    NoDupAppend([mnt], left);
    NoDupAppend([mnt] + left, own);
  }

  /** Slaves of other mounts: their run loses `mnt` together with the list it stands in. */
  twostate lemma OtherRun(b: SlavingAt)
    requires old(Target(b.a)) && old(WellFormed(b.a.S)) && b.m in b.a.S
    requires Unlinked(b.a.S, b.a.mnt) && Slaved(b.a.S, b.a.mnt, b.a.to)
    requires b.m != b.a.mnt && b.m !in old(b.a.mnt.slaves) && old(b.m.master) != null
    ensures Infix(b.m.ring, old(b.m.master).slaves)
  {
    hide Remove, Infix;
    var a, s := b.a, b.m;
    var m := old(s.master);
    var left := old(if m == a.mnt.master then Remove(m.slaves, a.mnt) else m.slaves);
    assert Infix(s.ring, left) by {
      if m == old(a.mnt.master) { InfixRemove(old(s.ring), old(m.slaves), a.mnt); }
    }
    if m == a.to { InfixWiden(s.ring, left, [a.mnt], old(a.mnt.slaves)); }
  }

  twostate lemma OwnRun(b: SlavingAt)
    requires old(Target(b.a)) && old(WellFormed(b.a.S)) && b.m in b.a.S
    requires Unlinked(b.a.S, b.a.mnt) && Slaved(b.a.S, b.a.mnt, b.a.to)
    requires b.m == b.a.mnt || b.m in old(b.a.mnt.slaves)
    ensures Infix(b.m.ring, b.a.to.slaves)
  {
    hide RingsClosed, Remove, Infix;
    var a, s := b.a, b.m;
    var own := old(a.mnt.slaves);
    var left := old(if a.to == a.mnt.master then Remove(a.to.slaves, a.mnt) else a.to.slaves);
    assert a.to.slaves == [a.mnt] + left + own + [];
    if s == a.mnt {
      SplitsInto(a.to.slaves, [], [a.mnt], left + own);
    } else {
      InfixWiden(old(s.ring), own, [a.mnt] + left, []);
    }
  }

  twostate lemma SlavedContiguous(a: Slaving)
    requires old(Target(a)) && old(WellFormed(a.S))
    requires Closed(a.S)
    requires Unlinked(a.S, a.mnt) && Slaved(a.S, a.mnt, a.to)
    ensures Contiguous(a.S)
  {
    hide RingsClosed, PeersAgree, SlavesMatch, Infix, Remove;
    forall s | s in a.S && s.master != null ensures Infix(s.ring, s.master.slaves) {
      if s == a.mnt || s in old(a.mnt.slaves) { OwnRun(SlavingAt(a, s)); } else { OtherRun(SlavingAt(a, s)); }
    }
  }

  twostate lemma SlavedRanked(a: Slaving)
    requires old(Target(a)) && old(WellFormed(a.S))
    requires Closed(a.S)
    requires Slaved(a.S, a.mnt, a.to)
    ensures Ranked(a.S)
  {
  }

  twostate lemma SlavedWellFormed(a: Slaving)
    requires old(Target(a)) && old(WellFormed(a.S))
    requires Unlinked(a.S, a.mnt) && Slaved(a.S, a.mnt, a.to)
    ensures WellFormed(a.S)
  {
    SlavedClosed(a);
    UnlinkKeepsRings(a);
    SlavedPeers(a);
    SlavedSlaves(a);
    SlavedContiguous(a);
    SlavedRanked(a);
  }

  twostate lemma TargetHearsAlike(b: SlavingAt)
    requires old(Target(b.a)) && old(WellFormed(b.a.S)) && b.m in b.a.S && b.m != b.a.mnt
    ensures old(Receives(b.a.S, b.m, b.a.mnt)) == old(Receives(b.a.S, b.m, b.a.to))
  {
    var a, x := b.a, b.m;
    if a.to in old(a.mnt.ring) {
      assert old(a.mnt in x.ring) <==> old(a.to in x.ring);
    } else {
      assert old(a.mnt !in x.ring);
    }
  }

  /** Slaving `mnt` changes nothing about which of the other mounts hear each other, or whom `mnt` hears. */
  twostate lemma SlavedReception(b: SlavingPair)
    requires old(Target(b.a)) && old(WellFormed(b.a.S)) && b.x in b.a.S && b.y in b.a.S && b.x != b.a.mnt
    requires Unlinked(b.a.S, b.a.mnt) && Slaved(b.a.S, b.a.mnt, b.a.to)
    requires Closed(b.a.S)
    requires Ranked(b.a.S)
    ensures Receives(b.a.S, b.x, b.y) == old(Receives(b.a.S, b.x, b.y))
    decreases b.y.rank, b.y == b.a.mnt
  {
    var a, x, y := b.a, b.x, b.y;
    RemoveContents(old(a.mnt.ring), a.mnt);
    assert y in x.ring <==> y in old(x.ring) && y != a.mnt;
    if y == a.mnt || y in old(a.mnt.slaves) {
      TargetHearsAlike(SlavingAt(a, x));
      assert a.to.rank < y.rank by {
        assert a.to.rank == old(a.to.rank) <= old(a.mnt.rank);
        if y != a.mnt { assert y.rank == old(y.rank) && old(y.master == a.mnt); }
      }
      SlavedReception(SlavingPair(a, x, a.to));
    } else if y.master != null {
      SlavedReception(SlavingPair(a, x, y.master));
    }
  }

  twostate lemma SlavedSendsNothing(b: SlavingAt)
    requires old(Target(b.a)) && old(WellFormed(b.a.S)) && b.m in b.a.S && b.m != b.a.mnt
    requires Unlinked(b.a.S, b.a.mnt) && Slaved(b.a.S, b.a.mnt, b.a.to)
    requires WellFormed(b.a.S)
    ensures !Receives(b.a.S, b.a.mnt, b.m)
    decreases b.m.rank
  {
    hide RingsClosed, Contiguous, Remove, SlavesAfter;
    if b.m.master != null {
      assert b.m in b.m.master.slaves;
      SlavedSendsNothing(SlavingAt(b.a, b.m.master));
    }
  }

  // ---------------------------------------------------------------- losing a master

  twostate predicate SameRings(S: set<Mount>)
    reads S`ring, S`rank, S`next, S`prev
  {
    && (forall m {:trigger m.ring} :: m in S ==> m.ring == old(m.ring))
    && (forall m {:trigger m.rank} :: m in S ==> m.rank == old(m.rank))
    && (forall m {:trigger m.next} :: m in S ==> m.next == old(m.next))
    && (forall m {:trigger m.prev} :: m in S ==> m.prev == old(m.prev))
  }

  twostate lemma RingsStay(S: set<Mount>)
    requires old(Closed(S)) && old(RingsClosed(S)) && SameRings(S)
    requires Closed(S)
    ensures RingsClosed(S)
  {
    forall m | m in S ensures m in m.ring && NoDup(m.ring) && Closes(m.ring) {
      forall i | 0 <= i < |m.ring| ensures m.ring[i].next == m.ring[Succ(i, |m.ring|)] {
        assert m.ring[i] in m.ring && m.ring[i].next == old(m.ring[i].next);
      }
    }
  }

  /** `mnt` had neither peers nor master, and its slaves have lost theirs. */
  twostate predicate Freed(S: set<Mount>, mnt: Mount)
    reads S
  {
    && (forall m {:trigger m.master} :: m in S ==> m.master == if m in old(mnt.slaves) then null else old(m.master))
    && (forall m {:trigger m.slaves} :: m in S ==> m.slaves == old(if m == mnt then [] else m.slaves))
    && (forall m {:trigger m.group} {:trigger m.shared} :: m in S && m != mnt ==>
         m.group == old(m.group) && m.shared == old(m.shared))
    && (mnt in S ==> !mnt.shared && mnt.group == old(if mnt.shared then 0 else mnt.group))
    && SameRings(S)
  }

  twostate lemma FreedWellFormed(a: Slaving)
    requires a.mnt in a.S && old(WellFormed(a.S)) && old(a.mnt.ring == [a.mnt] && a.mnt.master == null)
    requires Freed(a.S, a.mnt)
    ensures WellFormed(a.S)
  {
    hide Infix, NoDup, Closes;
    assert Closed(a.S);
    RingsStay(a.S);
    assert PeersAgree(a.S);
    assert SlavesMatch(a.S) by {
      assert a.mnt !in old(a.mnt.slaves);
      forall m | m in a.S ensures NoDup(m.slaves) { EmptyNoDup<Mount>(); }
    }
    assert Contiguous(a.S);
  }

  twostate lemma FreedReception(b: SlavingPair)
    requires b.a.mnt in b.a.S && old(WellFormed(b.a.S)) && old(b.a.mnt.ring == [b.a.mnt] && b.a.mnt.master == null)
    requires Freed(b.a.S, b.a.mnt)
    requires Closed(b.a.S)
    requires Ranked(b.a.S)
    requires b.x in b.a.S && b.y in b.a.S && b.x != b.a.mnt
    ensures Receives(b.a.S, b.x, b.y) == old(Receives(b.a.S, b.x, b.y))
    decreases b.y.rank
  {
    var a, x, y := b.a, b.x, b.y;
    if y.master != null {
      FreedReception(SlavingPair(a, x, y.master));
    } else if y in old(a.mnt.slaves) {
      assert !old(Receives(a.S, x, a.mnt));
    }
  }

  twostate lemma FreedSilent(b: SlavingAt)
    requires b.a.mnt in b.a.S && old(WellFormed(b.a.S)) && old(b.a.mnt.ring == [b.a.mnt] && b.a.mnt.master == null)
    requires Freed(b.a.S, b.a.mnt)
    requires WellFormed(b.a.S)
    requires b.m in b.a.S && b.m != b.a.mnt
    ensures !Receives(b.a.S, b.a.mnt, b.m)
    decreases b.m.rank
  {
    hide RingsClosed, Contiguous;
    if b.m.master != null {
      assert b.m in b.m.master.slaves;
      FreedSilent(SlavingAt(b.a, b.m.master));
    }
  }

  /** `mnt`, which has neither peers nor slaves, has left the slave list of its master. */
  twostate predicate Orphaned(S: set<Mount>, mnt: Mount)
    reads S
  {
    && (forall m {:trigger m.master} :: m in S ==> m.master == if m == mnt then null else old(m.master))
    && (forall m {:trigger m.slaves} :: m in S ==>
         m.slaves == old(if m == mnt.master then Remove(m.slaves, mnt) else m.slaves))
    && (forall m {:trigger m.group} {:trigger m.shared} :: m in S ==> m.group == old(m.group) && m.shared == old(m.shared))
    && SameRings(S)
  }

  twostate lemma OrphanedWellFormed(a: Slaving)
    requires a.mnt in a.S && old(WellFormed(a.S)) && old(a.mnt.ring == [a.mnt] && a.mnt.slaves == [])
    requires Orphaned(a.S, a.mnt)
    ensures WellFormed(a.S)
  {
    hide Infix, NoDup, Closes, Remove;
    if old(a.mnt.master) != null { RemoveContents(old(a.mnt.master.slaves), a.mnt); }
    assert Closed(a.S);
    RingsStay(a.S);
    OrphanedAgree(a);
    OrphanedLists(a);
    assert Contiguous(a.S) by {
      forall s | s in a.S && s.master != null ensures Infix(s.ring, s.master.slaves) { OrphanedRun(SlavingAt(a, s)); }
    }
  }

  twostate lemma OrphanedAgree(a: Slaving)
    requires a.mnt in a.S && old(WellFormed(a.S)) && old(a.mnt.ring == [a.mnt]) && Orphaned(a.S, a.mnt)
    requires Closed(a.S)
    ensures PeersAgree(a.S)
  {
    hide Closes, NoDup, SlavesMatch, Contiguous, Ranked;
  }

  twostate lemma OrphanedLists(a: Slaving)
    requires a.mnt in a.S && old(WellFormed(a.S)) && Orphaned(a.S, a.mnt)
    requires Closed(a.S)
    ensures SlavesMatch(a.S)
  {
    hide Remove, NoDup, RingsClosed, PeersAgree, Contiguous, Ranked;
    forall m | m in a.S ensures NoDup(m.slaves) { RemoveContents(old(m.slaves), a.mnt); }
    if old(a.mnt.master) != null { RemoveContents(old(a.mnt.master.slaves), a.mnt); }
  }

  twostate lemma OrphanedRun(b: SlavingAt)
    requires b.a.mnt in b.a.S && old(WellFormed(b.a.S)) && old(b.a.mnt.ring == [b.a.mnt]) && Orphaned(b.a.S, b.a.mnt)
    requires b.m in b.a.S && b.m.master != null
    ensures Infix(b.m.ring, b.m.master.slaves)
  {
    hide Infix, NoDup, Closes, Remove;
    InfixRemove(old(b.m.ring), old(b.m.master.slaves), b.a.mnt);
  }

  twostate lemma OrphanedReception(b: SlavingPair)
    requires b.a.mnt in b.a.S && old(WellFormed(b.a.S)) && old(b.a.mnt.ring == [b.a.mnt] && b.a.mnt.slaves == [])
    requires Orphaned(b.a.S, b.a.mnt)
    requires Closed(b.a.S)
    requires Ranked(b.a.S)
    requires b.x in b.a.S && b.y in b.a.S
    ensures Receives(b.a.S, b.x, b.y) ==
      if b.y == b.a.mnt then b.x == b.a.mnt else old(Receives(b.a.S, b.x, b.y))
    decreases b.y.rank
  {
    var a, x, y := b.a, b.x, b.y;
    if y == a.mnt {
      assert y in x.ring ==> x in old(y.ring);
    } else if y.master != null {
      assert y in old(y.master.slaves);
      OrphanedReception(SlavingPair(a, x, y.master));
    }
  }
}
