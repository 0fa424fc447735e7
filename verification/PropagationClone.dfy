/** clone_mnt's part in the propagation graph: how a fresh mount joins it. */
module PropagationClone {
  import opened Lists
  import opened Propagation
  import opened PropagationOps

  /** A fresh mount `mnt` joins the mounts `S`, which already hold it, next to or below `from`. */
  datatype Joining = Joining(S: set<Mount>, from: Mount, mnt: Mount)

  /** The same with an id or flags, and seen from a mount or a pair of mounts. */
  datatype JoiningId = JoiningId(a: Joining, id: int)
  datatype JoiningFlags = JoiningFlags(a: Joining, f: CloneFlags)
  datatype Cloning = Cloning(a: Joining, f: CloneFlags, id: int)
  datatype JoiningAt = JoiningAt(a: Joining, m: Mount)
  datatype JoiningPair = JoiningPair(a: Joining, x: Mount, y: Mount)

  /** Nothing but itself is linked to `mnt` yet. */
  ghost predicate Fresh(a: Joining)
    reads a.S, a.mnt
  {
    && a.from in a.S && a.mnt in a.S && a.from != a.mnt
    && a.mnt.ring == [a.mnt] && a.mnt.slaves == [] && a.mnt.master == null && a.mnt.group == 0 && !a.mnt.shared
  }

  /** list_add(&mnt->mnt_share, &from->mnt_share) */
  twostate predicate InsertedInRing(a: Joining)
    reads a.S`next, a.S`prev, a.S`ring
  {
    && (forall m {:trigger m.next} :: m in a.S ==>
         m.next == if m == a.from then a.mnt else if m == a.mnt then old(a.from.next) else old(m.next))
    && (forall m {:trigger m.prev} :: m in a.S ==>
         m.prev == if m == a.mnt then a.from else if m == old(a.from.next) then a.mnt else old(m.prev))
    && (forall m {:trigger m.ring} :: m in a.S ==>
         m.ring == if m == a.mnt || m in old(a.from.ring) then InsertedRing(old(a.from.ring), a.from, a.mnt) else old(m.ring))
  }

  ghost function InsertedRing(r: seq<Mount>, from: Mount, mnt: Mount): seq<Mount> {
    if from in r then InsertAfter(r, from, mnt) else r
  }

  /** `mnt` gets the master of `from` and stands right behind it on that master's list. */
  twostate predicate PlacedBeside(a: Joining)
    reads a.S`master, a.S`slaves, a.S`rank
  {
    && (forall m {:trigger m.master} :: m in a.S ==> m.master == if m == a.mnt then old(a.from.master) else old(m.master))
    && (forall m {:trigger m.slaves} :: m in a.S ==>
         m.slaves == if m == old(a.from.master) then InsertedRing(old(m.slaves), a.from, a.mnt) else old(m.slaves))
    && (forall m {:trigger m.rank} :: m in a.S ==> m.rank == old(if m == a.mnt then a.from.rank else m.rank))
  }

  /** Where the places of a ring move when `x` is put in behind place `k`. */
  lemma InsertPlace<T>(r: seq<T>, k: nat, x: T, i: nat)
    requires k < |r| && i <= |r|
    ensures var q := r[..k + 1] + [x] + r[k + 1..];
      && q[i] == (if i <= k then r[i] else if i == k + 1 then x else r[i - 1])
      && q[Succ(i, |q|)] == (if i == k then x else if i == k + 1 then r[Succ(k, |r|)] else r[Succ(if i < k then i else i - 1, |r|)])
  {
  }

  twostate lemma InsertCloses(a: Joining)
    requires old(Fresh(a)) && old(Closed(a.S)) && old(RingsClosed(a.S)) && InsertedInRing(a)
    ensures Closes(InsertedRing(old(a.from.ring), a.from, a.mnt))
  {
    var r := old(a.from.ring);
    var k := IndexOf(r, a.from);
    var q := InsertedRing(r, a.from, a.mnt);
    assert old(r[k].next) == r[Succ(k, |r|)];
    forall i | 0 <= i < |q| ensures q[i].next == q[Succ(i, |q|)] {
      InsertPlace(r, k, a.mnt, i);
      if i < k {
        assert r[i] in r && old(r[i].next) == r[Succ(i, |r|)] && r[i] != r[k];
      } else if i > k + 1 {
        assert r[i - 1] in r && old(r[i - 1].next) == r[Succ(i - 1, |r|)] && r[i - 1] != r[k];
      }
    }
  }

  twostate lemma InsertInverse(a: Joining)
    requires old(Fresh(a)) && old(Closed(a.S)) && old(RingsClosed(a.S)) && InsertedInRing(a)
    ensures forall m, p {:trigger m.next, p.prev} :: m in a.S && p in a.S ==> (m.next == p <==> p.prev == m)
  {
    AloneInOld(a);
    forall m, p | m in a.S && p in a.S ensures m.next == p <==> p.prev == m {
      assert old(m.next) == p <==> old(p.prev) == m;
      assert old(a.from.next) == p <==> old(p.prev) == a.from;
      assert old(m.next) == old(a.from.next) <==> m == a.from by {
        assert old(a.from.next) in a.S;
        assert old(a.from.next.prev) == a.from;
      }
      assert old(a.mnt.next) == p <==> old(p.prev) == a.mnt;
    }
  }

  twostate lemma AloneInOld(a: Joining)
    requires old(Fresh(a)) && old(Closed(a.S)) && old(RingsClosed(a.S))
    ensures old(a.mnt.next == a.mnt && a.mnt.prev == a.mnt)
    ensures forall m :: m in a.S && m != a.mnt ==> a.mnt !in old(m.ring)
  {
    assert old(a.mnt.ring[0].next) == a.mnt;
    assert old(a.mnt.prev) == a.mnt;
  }

  /** Group ids and MNT_SHARED, which clone_mnt sets for the new mount alone. */
  twostate predicate Labelled(a: Joining, id: int)
    reads a.S`group, a.S`shared
  {
    && (forall m {:trigger m.group} :: m in a.S ==> m.group == if m == a.mnt then id else old(m.group))
    && (forall m {:trigger m.shared} :: m in a.S && m != a.mnt ==> m.shared == old(m.shared))
    && (a.mnt in a.S && a.mnt.shared ==> id != 0)
  }

  /** An id no mount carries. */
  ghost predicate Unused(S: set<Mount>, id: int)
    reads S`group
  {
    forall m {:trigger m.group} :: m in S ==> m.group != id || id == 0
  }

  // ---------------------------------------------------------------- joining the peer group of `from`

  twostate lemma PeeredClosed(a: Joining)
    requires old(Fresh(a)) && old(WellFormed(a.S)) && InsertedInRing(a) && PlacedBeside(a)
    ensures Closed(a.S)
  {
    hide PeersAgree, Contiguous, InsertAfter, NoDup, Closes, Ranked;
    AloneInOld(a);
    InsertContents(old(a.from.ring), a.from, a.mnt);
    if old(a.from.master) != null { InsertContents(old(a.from.master.slaves), a.from, a.mnt); }
  }

  twostate lemma PeeredRing(a: JoiningAt)
    requires old(Fresh(a.a)) && a.m in a.a.S && old(Closed(a.a.S)) && old(RingsClosed(a.a.S)) && InsertedInRing(a.a)
    ensures a.m in a.m.ring && NoDup(a.m.ring) && Closes(a.m.ring)
  {
    hide InsertAfter;
    AloneInOld(a.a);
    var r := old(a.m.ring);
    if a.m == a.a.mnt || a.m in old(a.a.from.ring) {
      InsertContents(old(a.a.from.ring), a.a.from, a.a.mnt);
      InsertCloses(a.a);
    } else {
      forall i | 0 <= i < |r| ensures r[i].next == r[Succ(i, |r|)] {
        assert r[i] in r && old(r[i].next) == r[Succ(i, |r|)];
      }
    }
  }

  twostate lemma PeeredRings(a: Joining)
    requires old(Fresh(a)) && old(Closed(a.S)) && old(RingsClosed(a.S)) && InsertedInRing(a)
    requires Closed(a.S)
    ensures RingsClosed(a.S)
  {
    hide InsertAfter, Closes, NoDup;
    InsertInverse(a);
    AloneInOld(a);
    forall m | m in a.S ensures m in m.ring && NoDup(m.ring) && Closes(m.ring) { PeeredRing(JoiningAt(a, m)); }
    InsertContents(old(a.from.ring), a.from, a.mnt);
  }

  twostate lemma PeeredAgree(a: Joining)
    requires old(Fresh(a)) && old(WellFormed(a.S)) && old(a.from.group != 0)
    requires InsertedInRing(a) && PlacedBeside(a) && Labelled(a, old(a.from.group))
    requires Closed(a.S)
    ensures PeersAgree(a.S)
  {
    hide Contiguous, InsertAfter, SlavesMatch;
    AloneInOld(a);
    InsertContents(old(a.from.ring), a.from, a.mnt);
  }

  twostate lemma BesideSlaves(a: Joining)
    requires old(Fresh(a)) && old(WellFormed(a.S)) && PlacedBeside(a)
    requires Closed(a.S)
    ensures SlavesMatch(a.S)
  {
    hide RingsClosed, PeersAgree, Contiguous, InsertAfter;
    if old(a.from.master) != null { InsertContents(old(a.from.master.slaves), a.from, a.mnt); }
  }

  twostate lemma BesideRanked(a: Joining)
    requires old(Fresh(a)) && old(WellFormed(a.S)) && PlacedBeside(a)
    requires Closed(a.S)
    ensures Ranked(a.S)
  {
    hide RingsClosed, PeersAgree, Contiguous, InsertAfter;
    forall s | s in a.S ensures 0 <= s.rank && (s.master != null ==> s.master.rank < s.rank) {
      var t := if s == a.mnt then a.from else s;
      assert 0 <= old(t.rank) && (old(t.master) != null ==> t in old(t.master.slaves));
    }
  }

  /** Runs of peers survive the new place behind `from`, and the run of `from` grows with its ring. */
  twostate lemma PeeredRun(a: JoiningAt)
    requires old(Fresh(a.a)) && old(WellFormed(a.a.S)) && a.m in a.a.S && a.m.master != null && a.m.master in a.a.S
    requires InsertedInRing(a.a) && PlacedBeside(a.a)
    ensures Infix(a.m.ring, a.m.master.slaves)
  {
    hide InsertAfter, Infix, NoDup, Closes;
    AloneInOld(a.a);
    var s := if a.m == a.a.mnt then a.a.from else a.m;
    var upper := old(s.master);
    if upper == old(a.a.from.master) {
      InfixInsert(old(s.ring), old(upper.slaves), a.a.from, a.a.mnt);
    }
  }

  twostate lemma PeeredWellFormed(a: Joining)
    requires old(Fresh(a)) && old(WellFormed(a.S)) && old(a.from.group != 0)
    requires InsertedInRing(a) && PlacedBeside(a) && Labelled(a, old(a.from.group))
    ensures WellFormed(a.S)
  {
    hide RingsClosed, PeersAgree, SlavesMatch, Ranked, Infix;
    PeeredClosed(a);
    PeeredRings(a);
    PeeredAgree(a);
    BesideSlaves(a);
    forall s | s in a.S && s.master != null ensures Infix(s.ring, s.master.slaves) { PeeredRun(JoiningAt(a, s)); }
    BesideRanked(a);
  }

  // ---------------------------------------------------------------- standing beside, below or apart

  /** `mnt` heads the slaves of `from`. */
  twostate predicate PlacedBelow(a: Joining)
    reads a.S`master, a.S`slaves, a.S`rank
  {
    && (forall m {:trigger m.master} :: m in a.S ==> m.master == if m == a.mnt then a.from else old(m.master))
    && (forall m {:trigger m.slaves} :: m in a.S ==> m.slaves == if m == a.from then [a.mnt] + old(m.slaves) else old(m.slaves))
    && (forall m {:trigger m.rank} :: m in a.S ==> m.rank == old(if m == a.mnt then a.from.rank + 1 else m.rank))
  }

  twostate predicate RingLinksSame(S: set<Mount>)
    reads S`ring, S`next, S`prev
  {
    && (forall m {:trigger m.ring} :: m in S ==> m.ring == old(m.ring))
    && (forall m {:trigger m.next} :: m in S ==> m.next == old(m.next))
    && (forall m {:trigger m.prev} :: m in S ==> m.prev == old(m.prev))
  }

  twostate lemma RingLinksStay(S: set<Mount>)
    requires old(Closed(S)) && old(RingsClosed(S)) && RingLinksSame(S)
    requires Closed(S)
    ensures RingsClosed(S)
  {
    forall m | m in S ensures m in m.ring && NoDup(m.ring) && Closes(m.ring) {
      forall i | 0 <= i < |m.ring| ensures m.ring[i].next == m.ring[Succ(i, |m.ring|)] {
        assert m.ring[i] in m.ring && m.ring[i].next == old(m.ring[i].next);
      }
    }
  }

  twostate lemma BelowRanked(a: Joining)
    requires old(Fresh(a)) && old(WellFormed(a.S)) && PlacedBelow(a)
    requires Closed(a.S)
    ensures Ranked(a.S)
  {
    hide RingsClosed, PeersAgree, Contiguous;
    forall s | s in a.S ensures 0 <= s.rank && (s.master != null ==> s.master.rank < s.rank) {
      var t := if s == a.mnt then a.from else s;
      assert 0 <= old(t.rank) && (old(t.master) != null ==> t in old(t.master.slaves));
    }
  }

  twostate lemma BelowRun(a: JoiningAt)
    requires old(Fresh(a.a)) && old(WellFormed(a.a.S)) && a.m in a.a.S && a.m.master != null
    requires RingLinksSame(a.a.S) && PlacedBelow(a.a)
    ensures Infix(a.m.ring, a.m.master.slaves)
  {
    hide Infix, NoDup, Closes;
    var from, mnt, s := a.a.from, a.a.mnt, a.m;
    if s == mnt {
      SplitsInto(from.slaves, [], [mnt], old(from.slaves));
    } else if s.master == from {
      InfixWiden(old(s.ring), old(from.slaves), [mnt], []);
      assert from.slaves == [mnt] + old(from.slaves) + [];
    }
  }

  twostate lemma BelowWellFormed(a: JoiningId)
    requires old(Fresh(a.a)) && old(WellFormed(a.a.S)) && old(Unused(a.a.S, a.id))
    requires RingLinksSame(a.a.S) && PlacedBelow(a.a) && Labelled(a.a, a.id)
    ensures WellFormed(a.a.S)
  {
    hide Infix, NoDup, Closed, RingsClosed, PeersAgree, SlavesMatch, Ranked, PlacedBelow, RingLinksSame, Labelled;
    BelowClosed(a.a);
    RingLinksStay(a.a.S);
    BelowAgree(a);
    BelowSlaves(a.a);
    forall s | s in a.a.S && s.master != null ensures Infix(s.ring, s.master.slaves) { BelowRun(JoiningAt(a.a, s)); }
    BelowRanked(a.a);
  }

  twostate lemma BelowClosed(a: Joining)
    requires old(Fresh(a)) && old(WellFormed(a.S)) && RingLinksSame(a.S) && PlacedBelow(a)
    ensures Closed(a.S)
  {
    hide RingsClosed, PeersAgree, Contiguous, Ranked, NoDup;
  }

  twostate lemma BelowAgree(a: JoiningId)
    requires old(Fresh(a.a)) && old(WellFormed(a.a.S)) && old(Unused(a.a.S, a.id))
    requires RingLinksSame(a.a.S) && PlacedBelow(a.a) && Labelled(a.a, a.id)
    requires Closed(a.a.S)
    ensures PeersAgree(a.a.S)
  {
    hide Closes, SlavesMatch, Contiguous, Ranked, NoDup;
    AloneInOld(a.a);
  }

  twostate lemma BelowSlaves(a: Joining)
    requires old(Fresh(a)) && old(WellFormed(a.S)) && PlacedBelow(a)
    requires Closed(a.S)
    ensures SlavesMatch(a.S)
  {
    hide NoDup, RingsClosed, PeersAgree, Contiguous, Ranked;
    SingletonNoDup(a.mnt);
    assert a.mnt !in old(a.from.slaves);
    NoDupAppend([a.mnt], old(a.from.slaves));
  }

  ghost predicate FollowedBy(l: seq<Mount>, x: Mount, y: Mount) {
    exists i {:trigger l[i]} :: 0 <= i < |l| - 1 && l[i] == x && l[i + 1] == y
  }

  /** What would be inserted behind `from` on its master's list does not part it from its next peer. */
  ghost predicate LastOfRun(from: Mount)
    reads from, from.master
  {
    from.master == null || from.next == from || !FollowedBy(from.master.slaves, from, from.next)
  }

  /** The same in terms of the ring. */
  ghost predicate LastOnRing(from: Mount)
    reads from
  {
    from.master == null || (from.ring != [] && from.ring[|from.ring| - 1] == from)
  }

  lemma NextInRun(l: seq<Mount>, r: seq<Mount>, k: nat)
    requires Infix(r, l) && k + 1 < |r|
    ensures FollowedBy(l, r[k], r[k + 1])
  {
    var at: nat :| OccursAt(r, l, at);
    assert l[at..at + |r|][k] == l[at + k] && l[at..at + |r|][k + 1] == l[at + k + 1];
  }

  lemma LastInRing(S: set<Mount>, from: Mount)
    requires WellFormed(S) && from in S && LastOfRun(from)
    ensures LastOnRing(from)
  {
    hide NoDup, Infix, FollowedBy, Ranked, SlavesMatch, PeersAgree;
    var k := IndexOf(from.ring, from);
    assert from.ring[k].next == from.ring[Succ(k, |from.ring|)];
    if k + 1 < |from.ring| && from.master != null {
      NextInRun(from.master.slaves, from.ring, k);
      AloneIffSelfLinked(S, from);
    }
  }

  /** Inserting behind the last of a run keeps the run. */
  lemma InsertBehindRun(part: seq<Mount>, whole: seq<Mount>, at: Mount, x: Mount)
    requires NoDup(whole) && Infix(part, whole) && part != [] && part[|part| - 1] == at && at in whole
    ensures Infix(part, InsertAfter(whole, at, x))
  {
    hide InsertAfter, NoDup, IndexOf;
    var k: nat :| OccursAt(part, whole, k);
    var i := k + |part| - 1;
    assert whole[k..i + 1][|part| - 1] == whole[i];
    NoDupIndex(whole, i);
    InsertedAt(whole, at, i, x);
    assert whole[..i + 1] == whole[..k] + part;
    Reassociate(whole[..k] + part, [x], whole[i + 1..]);
    SplitsInto(InsertAfter(whole, at, x), whole[..k], part, [x] + whole[i + 1..]);
  }

  lemma InsertedAt(l: seq<Mount>, at: Mount, i: nat, x: Mount)
    requires at in l && i < |l| && IndexOf(l, at) == i
    ensures InsertAfter(l, at, x) == l[..i + 1] + [x] + l[i + 1..]
  {
    hide IndexOf;
  }

  /** A clone of a mount that is no peer passes on its master, nothing else. */
  twostate lemma BesideWellFormed(a: Joining)
    requires old(Fresh(a)) && old(WellFormed(a.S)) && old(LastOnRing(a.from))
    requires RingLinksSame(a.S) && PlacedBeside(a) && Labelled(a, 0)
    ensures WellFormed(a.S)
  {
    hide Infix, NoDup, Closed, RingsClosed, PeersAgree, SlavesMatch, Ranked, LastOnRing, PlacedBeside, RingLinksSame, Labelled;
    BesideClosed(a);
    RingLinksStay(a.S);
    BesideAgree(a);
    BesideSlaves(a);
    BesideRanked(a);
    forall s | s in a.S && s.master != null ensures Infix(s.ring, s.master.slaves) {
      MasterIn(a.S, s);
      BesideRun(JoiningAt(a, s));
    }
  }

  lemma MasterIn(S: set<Mount>, s: Mount)
    requires Closed(S) && s in S && s.master != null
    ensures s.master in S
  {
  }

  twostate lemma BesideClosed(a: Joining)
    requires old(Fresh(a)) && old(WellFormed(a.S)) && RingLinksSame(a.S) && PlacedBeside(a)
    ensures Closed(a.S)
  {
    hide RingsClosed, PeersAgree, Contiguous, Ranked, NoDup, InsertAfter;
    if old(a.from.master) != null { InsertContents(old(a.from.master.slaves), a.from, a.mnt); }
  }

  twostate lemma BesideAgree(a: Joining)
    requires old(Fresh(a)) && old(WellFormed(a.S)) && RingLinksSame(a.S) && PlacedBeside(a) && Labelled(a, 0)
    requires Closed(a.S)
    ensures PeersAgree(a.S)
  {
    hide Closes, SlavesMatch, Contiguous, Ranked, NoDup, InsertAfter;
    AloneInOld(a);
  }

  twostate lemma BesideRun(a: JoiningAt)
    requires old(Fresh(a.a)) && old(WellFormed(a.a.S)) && a.m in a.a.S && a.m.master != null && a.m.master in a.a.S
    requires old(LastOnRing(a.a.from)) && RingLinksSame(a.a.S) && PlacedBeside(a.a)
    ensures Infix(a.m.ring, a.m.master.slaves)
  {
    hide Infix, NoDup, Closes, InsertAfter;
    var from, mnt, s := a.a.from, a.a.mnt, a.m;
    AloneInOld(a.a);
    if s == mnt {
      InsertedAlone(old(from.master.slaves), from, mnt);
    } else if s.master == old(from.master) {
      InfixInsert(old(s.ring), old(s.master.slaves), from, mnt);
      if from in old(s.ring) {
        InsertBehindRun(old(s.ring), old(from.master.slaves), from, mnt);
      }
    }
  }

  lemma InsertedAlone(l: seq<Mount>, from: Mount, mnt: Mount)
    requires from in l
    ensures Infix([mnt], InsertAfter(l, from, mnt)) && Infix([from], InsertAfter(l, from, mnt))
  {
    var i := IndexOf(l, from);
    SplitsInto(InsertAfter(l, from, mnt), l[..i + 1], [mnt], l[i + 1..]);
    SplitsInto(InsertAfter(l, from, mnt), l[..i], [from], [mnt] + l[i + 1..]);
  }

  twostate lemma ApartWellFormed(a: JoiningId)
    requires old(Fresh(a.a)) && old(WellFormed(a.a.S)) && old(Unused(a.a.S, a.id))
    requires SameRings(a.a.S) && Labelled(a.a, a.id)
    requires forall m {:trigger m.master} :: m in a.a.S ==> m.master == old(m.master)
    requires forall m {:trigger m.slaves} :: m in a.a.S ==> m.slaves == old(m.slaves)
    ensures WellFormed(a.a.S)
  {
    hide Infix, NoDup, Closes;
    assert Closed(a.a.S);
    RingsStay(a.a.S);
  }

  // ---------------------------------------------------------------- who hears whom afterwards

  /** The mount that stood where `x` stands now, before the clone joined. */
  ghost function As(a: Joining, x: Mount): Mount { if x == a.mnt then a.from else x }

  /** A clone in the peer group of `from` hears, and is heard, exactly like `from`. */
  twostate lemma PeeredReception(b: JoiningPair)
    requires old(Fresh(b.a)) && old(WellFormed(b.a.S)) && InsertedInRing(b.a) && PlacedBeside(b.a)
    requires WellFormed(b.a.S)
    requires b.x in b.a.S && b.y in b.a.S
    ensures Receives(b.a.S, b.x, b.y) ==
      old(Receives(b.a.S, As(b.a, b.x), As(b.a, b.y)))
    decreases b.y == b.a.mnt, b.y.rank
  {
    hide PeersAgree, Contiguous, InsertAfter, NoDup, Closes;
    var a, x, y := b.a, b.x, b.y;
    AloneInOld(a);
    InsertContents(old(a.from.ring), a.from, a.mnt);
    var p, q := As(a, x), As(a, y);
    assert y in x.ring <==> q in old(p.ring) by { assert old(a.from in p.ring) <==> p in old(a.from.ring); }
    if y.master != null {
      assert q in old(q.master.slaves) && y.master != a.mnt;
      PeeredReception(JoiningPair(a, x, y.master));
    }
  }

  /** A clone below `from` hears what `from` hears and what happens on `from` itself; nobody hears the clone. */
  twostate lemma BelowReception(b: JoiningPair)
    requires old(Fresh(b.a)) && old(WellFormed(b.a.S)) && RingLinksSame(b.a.S) && PlacedBelow(b.a)
    requires WellFormed(b.a.S)
    requires b.x in b.a.S && b.y in b.a.S
    ensures Receives(b.a.S, b.x, b.y) ==
      if b.x == b.a.mnt then b.y == b.a.mnt else old(Receives(b.a.S, b.x, if b.y == b.a.mnt then b.a.from else b.y))
    decreases b.y == b.a.mnt, b.y.rank
  {
    hide RingsClosed, PeersAgree, Contiguous, NoDup, Closes;
    var a, x, y := b.a, b.x, b.y;
    AloneInOld(a);
    if y == a.mnt {
      BelowReception(JoiningPair(a, x, a.from));
    } else if y.master != null {
      assert y in old(y.master.slaves);
      BelowReception(JoiningPair(a, x, y.master));
    }
  }

  /** A clone beside a mount without peers hears what the common master hears. */
  twostate lemma BesideReception(b: JoiningPair)
    requires old(Fresh(b.a)) && old(WellFormed(b.a.S)) && RingLinksSame(b.a.S) && PlacedBeside(b.a)
    requires WellFormed(b.a.S)
    requires b.x in b.a.S && b.y in b.a.S
    ensures Receives(b.a.S, b.x, b.y) ==
      if b.x == b.a.mnt then b.y == b.a.mnt
      else if b.y == b.a.mnt then old(b.a.from.master != null && Receives(b.a.S, b.x, b.a.from.master))
      else old(Receives(b.a.S, b.x, b.y))
    decreases b.y == b.a.mnt, b.y.rank
  {
    hide RingsClosed, PeersAgree, Contiguous, InsertAfter, InsertedRing, NoDup, Closes;
    var a, x, y := b.a, b.x, b.y;
    AloneInOld(a);
    if y.master != null {
      var q := if y == a.mnt then a.from else y;
      assert q in old(q.master.slaves) && y.master != a.mnt;
      BesideReception(JoiningPair(a, x, y.master));
    }
  }

  lemma SelfCloses(mnt: Mount)
    requires mnt.next == mnt
    ensures Closes([mnt])
  {
  }

  /** A fresh mount with no links can be added to any well-formed set, and is heard by nobody. */
  lemma AddFresh(S: set<Mount>, mnt: Mount)
    requires WellFormed(S) && mnt !in S
    requires mnt.next == mnt && mnt.prev == mnt && mnt.slaves == [] && mnt.master == null && mnt.group == 0
    requires !mnt.shared && mnt.ring == [mnt] && mnt.rank == 0
    ensures WellFormed(S + {mnt})
  {
    hide Infix, NoDup, Closes;
    var T := S + {mnt};
    assert Closed(T);
    assert RingsClosed(T) by { SingletonNoDup(mnt); SelfCloses(mnt); }
    assert PeersAgree(T);
    assert SlavesMatch(T) by { EmptyNoDup<Mount>(); }
    assert Contiguous(T);
  }

  // ---------------------------------------------------------------- clone_mnt

  /** CL_SLAVE, CL_MAKE_SHARED, CL_PRIVATE, CL_SHARED_TO_SLAVE */
  datatype CloneFlags = CloneFlags(slave: bool, makeShared: bool, apart: bool, sharedToSlave: bool)

  /** The clone goes below `from`. */
  ghost predicate GoesBelow(from: Mount, f: CloneFlags)
    reads from
  {
    f.slave || (f.sharedToSlave && from.shared)
  }

  /**
   Exactly when cloning keeps the graph well formed: below a mount, apart from it, as a peer of a mount with an id, or
   without an id beside a mount that has none or is not parted from its peers.
   */
  ghost predicate Joinable(from: Mount, f: CloneFlags)
    reads from, from.master
  {
    || GoesBelow(from, f) || f.apart
    || if f.sharedToSlave then !f.makeShared && LastOfRun(from) else (f.makeShared || from.shared <==> from.group != 0)
  }

  /** Two neighbours on a ring with different ids, or two mounts with one id that are not on one ring. */
  ghost predicate Mislabelled(from: Mount, mnt: Mount)
    reads from, mnt
  {
    (from.next == mnt && mnt.group != from.group) || (mnt.next == mnt && mnt.group == from.group != 0)
  }

  /** `mnt` stands between `from` and its next peer on the list of their master. */
  ghost predicate Parted(from: Mount, mnt: Mount)
    reads from, from.master
  {
    from.master != null && PartedAt(from.master.slaves, from, mnt, from.next)
  }

  ghost predicate PartedAt(l: seq<Mount>, x: Mount, y: Mount, z: Mount) {
    exists i {:trigger l[i]} :: 0 <= i < |l| - 2 && l[i] == x && l[i + 1] == y && l[i + 2] == z
  }

  /** Peers that stand next to each other are not parted. */
  lemma RunNotParted(l: seq<Mount>, r: seq<Mount>, k: nat, y: Mount)
    requires NoDup(l) && Infix(r, l) && k < |r|
    ensures !PartedAt(l, r[k], y, r[Succ(k, |r|)])
  {
    var at: nat :| OccursAt(r, l, at);
    var n := Succ(k, |r|);
    assert l[at..at + |r|][k] == l[at + k] && l[at..at + |r|][n] == l[at + n];
    forall i | 0 <= i < |l| - 2 && l[i] == r[k] && l[i + 1] == y
      ensures l[i + 2] != r[n]
    {
      assert i == at + k;
    }
  }

  lemma PartedIsBroken(S: set<Mount>, from: Mount, mnt: Mount)
    requires WellFormed(S) && from in S
    ensures !Parted(from, mnt)
  {
    hide NoDup, Infix, PartedAt, Ranked, PeersAgree;
    var k := IndexOf(from.ring, from);
    assert from.ring[k].next == from.ring[Succ(k, |from.ring|)];
    if from.master != null { RunNotParted(from.master.slaves, from.ring, k, mnt); }
  }

  lemma InsertParts(l: seq<Mount>, x: Mount, y: Mount, z: Mount)
    requires NoDup(l) && FollowedBy(l, x, z)
    ensures x in l && PartedAt(InsertAfter(l, x, y), x, y, z)
  {
    var i :| 0 <= i < |l| - 1 && l[i] == x && l[i + 1] == z;
    NoDupIndex(l, i);
    var m := InsertAfter(l, x, y);
    assert m[i] == x && m[i + 1] == y && m[i + 2] == z;
  }

  /** A graph with such a pair is not well formed, whatever its rings. */
  lemma MislabelledIsBroken(S: set<Mount>, from: Mount, mnt: Mount)
    requires WellFormed(S) && from in S && mnt in S && from != mnt
    ensures !Mislabelled(from, mnt)
  {
    AloneIffSelfLinked(S, mnt);
    var k := IndexOf(from.ring, from);
    var next := from.ring[Succ(k, |from.ring|)];
    assert from.ring[k].next == next && next in from.ring;
    assert mnt.group == from.group != 0 ==> from in mnt.ring;
  }

  /** The clone keeps the group id of the original. */
  ghost predicate KeepsId(from: Mount, f: CloneFlags)
    reads from`group
  {
    !f.slave && !f.apart && !f.sharedToSlave && from.group != 0
  }

  /** The group id and the MNT_SHARED flag of the clone. */
  method Label(ghost S: set<Mount>, ghost from: Mount, mnt: Mount, id: int, shared: bool)
    requires mnt in S && (shared ==> id != 0)
    modifies mnt`group, mnt`shared
    ensures Labelled(Joining(S, from, mnt), id)
    ensures mnt.shared == shared
  {
    mnt.group := id;
    mnt.shared := shared;
  }

  method PlaceBeside(ghost S: set<Mount>, from: Mount, mnt: Mount)
    requires from in S && mnt in S && from != mnt
    requires from.master == null || (from.master in S && from in from.master.slaves)
    modifies S`master, S`slaves, mnt`rank
    ensures PlacedBeside(Joining(S, from, mnt))
  {
    hide InsertAfter;
    if from.master != null {
      from.master.slaves := InsertAfter(from.master.slaves, from, mnt);
    }
    mnt.master := from.master;
    mnt.rank := from.rank;
  }

  method PlaceBelow(ghost S: set<Mount>, from: Mount, mnt: Mount)
    requires from in S && mnt in S && from != mnt
    modifies from`slaves, mnt`master, mnt`rank
    ensures PlacedBelow(Joining(S, from, mnt))
  {
    from.slaves := [mnt] + from.slaves;
    mnt.master := from;
    mnt.rank := from.rank + 1;
  }

  method InsertPeer(ghost S: set<Mount>, from: Mount, mnt: Mount)
    requires from in S && mnt in S && from != mnt && from.next in S
    modifies S`next, S`prev, S`ring
    ensures InsertedInRing(Joining(S, from, mnt))
  {
    hide InsertAfter;
    var next := from.next;
    ghost var r := from.ring;
    next.prev := mnt;
    mnt.next := next;
    mnt.prev := from;
    from.next := mnt;
    forall m | m in S && (m == mnt || m in r) { m.ring := InsertedRing(r, from, mnt); }
  }

  method JoinBeside(ghost S: set<Mount>, from: Mount, mnt: Mount, id: int, shared: bool)
    requires from in S && mnt in S && from != mnt && (shared ==> id != 0)
    requires from.master == null || (from.master in S && from in from.master.slaves)
    modifies S`master, S`slaves, mnt`rank, mnt`group, mnt`shared
    ensures PlacedBeside(Joining(S, from, mnt))
    ensures Labelled(Joining(S, from, mnt), id)
    ensures mnt.master == old(from.master) && from.master == old(from.master)
    ensures from.master != null ==> from.master.slaves == InsertAfter(old(from.master.slaves), from, mnt)
    ensures mnt.shared == shared
  {
    hide Labelled, InsertAfter;
    Label(S, from, mnt, id, shared);
    PlaceBeside(S, from, mnt);
    assert PlacedBeside(Joining(S, from, mnt));
  }

  lemma Neighbours(S: set<Mount>, from: Mount)
    requires WellFormed(S) && from in S
    ensures from.next in S && (from.master == null || (from.master in S && from in from.master.slaves && NoDup(from.master.slaves)))
    ensures from.shared ==> from.group != 0
  {
  }

  lemma NoGroupIsLast(S: set<Mount>, from: Mount)
    requires WellFormed(S) && from in S && from.group == 0
    ensures LastOfRun(from)
  {
    AloneIffSelfLinked(S, from);
  }

  /** The branch for a mount that is not shared, and a clone that is not to be. */
  method JoinUnshared(ghost S: set<Mount>, from: Mount, mnt: Mount, f: CloneFlags, id: int)
    requires WellFormed(S) && Fresh(Joining(S, from, mnt)) && !f.slave && !f.apart && !f.makeShared && !from.shared
    requires id == if f.sharedToSlave then 0 else from.group
    modifies S`master, S`slaves, mnt`rank, mnt`group, mnt`shared
    ensures mnt.group == id && !mnt.shared && from.group == old(from.group) && mnt.master == old(from.master)
    ensures old(Joinable(from, f)) ==> WellFormed(S) && HeardAs(Joining(S, from, mnt), f)
    ensures !old(Joinable(from, f)) ==> Mislabelled(from, mnt) || Parted(from, mnt)
  {
    hide Closed, RingsClosed, PeersAgree, SlavesMatch, Contiguous, Ranked, PlacedBeside, Receives, LastOnRing, FollowedBy,
      PartedAt, HeardAs;
    Neighbours(S, from);
    AloneIffSelfLinked(S, mnt);
    if LastOfRun(from) { LastInRing(S, from); } else { InsertParts(from.master.slaves, from, mnt, from.next); }
    if from.group == 0 { NoGroupIsLast(S, from); }
    JoinBeside(S, from, mnt, id, false);
    if id == 0 && old(LastOfRun(from)) { BesideJoined(JoiningFlags(Joining(S, from, mnt), f)); }
  }

  /** The peer branch: the clone shares the ring and the master of `from`. */
  method JoinPeers(ghost S: set<Mount>, from: Mount, mnt: Mount, id: int, shared: bool)
    requires WellFormed(S) && Fresh(Joining(S, from, mnt)) && (shared ==> id != 0)
    modifies S`next, S`prev, S`ring, S`master, S`slaves, mnt`rank, mnt`group, mnt`shared
    ensures InsertedInRing(Joining(S, from, mnt))
    ensures PlacedBeside(Joining(S, from, mnt))
    ensures Labelled(Joining(S, from, mnt), id)
    ensures from.next == mnt
    ensures mnt.master == old(from.master)
    ensures mnt.shared == shared
  {
    hide WellFormed, InsertedRing, Labelled, PlacedBeside;
    Neighbours(S, from);
    JoinBeside(S, from, mnt, id, shared);
    InsertPeer(S, from, mnt);
    assert InsertedInRing(Joining(S, from, mnt));
  }

  method JoinBelow(ghost S: set<Mount>, from: Mount, mnt: Mount, id: int, shared: bool)
    requires Fresh(Joining(S, from, mnt)) && (shared ==> id != 0)
    modifies from`slaves, mnt`master, mnt`rank, mnt`group, mnt`shared
    ensures PlacedBelow(Joining(S, from, mnt))
    ensures Labelled(Joining(S, from, mnt), id)
    ensures mnt.master == from && from.slaves == [mnt] + old(from.slaves)
    ensures mnt.shared == shared
  {
    Label(S, from, mnt, id, shared);
    PlaceBelow(S, from, mnt);
  }

  /** Whom the clone hears and who hears the clone, in terms of the graph before. */
  twostate predicate HeardAs(a: Joining, f: CloneFlags)
    requires a.from in a.S && a.mnt in a.S && old(WellFormed(a.S)) && WellFormed(a.S)
    reads a.S
  {
    && OthersHearTheSame(a.S, a.mnt)
    && (forall x {:trigger Receives(a.S, x, a.mnt)} :: x in a.S && x != a.mnt ==>
         (Receives(a.S, x, a.mnt) <==> old(
            if GoesBelow(a.from, f) then Receives(a.S, x, a.from)
            else if f.apart then false
            else if f.makeShared || a.from.shared then Receives(a.S, x, a.from)
            else a.from.master != null && Receives(a.S, x, a.from.master))))
    && (forall y {:trigger Receives(a.S, a.mnt, y)} :: y in a.S && y != a.mnt ==>
         (Receives(a.S, a.mnt, y) <==> old(
            !GoesBelow(a.from, f) && !f.apart && (f.makeShared || a.from.shared) && Receives(a.S, a.from, y))))
  }

  twostate lemma BelowJoined(b: Cloning)
    requires old(Fresh(b.a)) && old(WellFormed(b.a.S)) && old(Unused(b.a.S, b.id)) && old(GoesBelow(b.a.from, b.f))
    requires RingLinksSame(b.a.S) && PlacedBelow(b.a) && Labelled(b.a, b.id)
    ensures WellFormed(b.a.S)
    ensures HeardAs(b.a, b.f)
  {
    BelowWellFormed(JoiningId(b.a, b.id));
    hide Closed, RingsClosed, PeersAgree, SlavesMatch, Contiguous, Ranked, Receives;
    forall x, y | x in b.a.S && y in b.a.S
      ensures Receives(b.a.S, x, y) ==
        if x == b.a.mnt then y == b.a.mnt else old(Receives(b.a.S, x, if y == b.a.mnt then b.a.from else y))
    {
      BelowReception(JoiningPair(b.a, x, y));
    }
  }

  /** The clone is indistinguishable from `from`. */
  twostate predicate Mirrors(a: Joining)
    requires a.from in a.S && a.mnt in a.S && old(WellFormed(a.S)) && WellFormed(a.S)
    reads a.S
  {
    forall x, y {:trigger Receives(a.S, x, y)} :: x in a.S && y in a.S ==>
      Receives(a.S, x, y) == old(Receives(a.S, As(a, x), As(a, y)))
  }

  twostate lemma PeersMirror(a: Joining)
    requires old(Fresh(a)) && old(WellFormed(a.S)) && InsertedInRing(a) && PlacedBeside(a)
    requires WellFormed(a.S)
    ensures Mirrors(a)
  {
    hide Closed, RingsClosed, PeersAgree, SlavesMatch, Contiguous, Ranked, Receives, InsertedInRing, PlacedBeside;
    forall x, y | x in a.S && y in a.S ensures Receives(a.S, x, y) == old(Receives(a.S, As(a, x), As(a, y))) {
      PeeredReception(JoiningPair(a, x, y));
    }
  }

  twostate lemma PeersJoined(b: JoiningFlags)
    requires old(Fresh(b.a)) && old(WellFormed(b.a.S)) && old(b.a.from.group != 0)
    requires old(!GoesBelow(b.a.from, b.f) && !b.f.apart && (b.f.makeShared || b.a.from.shared))
    requires InsertedInRing(b.a) && PlacedBeside(b.a) && Labelled(b.a, old(b.a.from.group))
    ensures WellFormed(b.a.S)
    ensures HeardAs(b.a, b.f)
  {
    hide Closed, RingsClosed, PeersAgree, SlavesMatch, Contiguous, Ranked, Receives, InsertedInRing, PlacedBeside, Labelled;
    PeeredWellFormed(b.a);
    PeersMirror(b.a);
  }

  twostate lemma BesideJoined(b: JoiningFlags)
    requires old(Fresh(b.a)) && old(WellFormed(b.a.S)) && old(LastOnRing(b.a.from))
    requires old(!GoesBelow(b.a.from, b.f) && !b.f.apart && !b.f.makeShared && !b.a.from.shared)
    requires RingLinksSame(b.a.S) && PlacedBeside(b.a) && Labelled(b.a, 0)
    ensures WellFormed(b.a.S)
    ensures HeardAs(b.a, b.f)
  {
    BesideWellFormed(b.a);
    hide Closed, RingsClosed, PeersAgree, SlavesMatch, Contiguous, Ranked, Receives;
    forall x, y | x in b.a.S && y in b.a.S
      ensures Receives(b.a.S, x, y) ==
        if x == b.a.mnt then y == b.a.mnt
        else if y == b.a.mnt then old(b.a.from.master != null && Receives(b.a.S, x, b.a.from.master))
        else old(Receives(b.a.S, x, y))
    {
      BesideReception(JoiningPair(b.a, x, y));
    }
  }

  twostate lemma ApartReception(b: JoiningPair)
    requires old(Fresh(b.a)) && old(WellFormed(b.a.S)) && SameRings(b.a.S)
    requires forall m {:trigger m.master} :: m in b.a.S ==> m.master == old(m.master)
    requires WellFormed(b.a.S)
    requires b.x in b.a.S && b.y in b.a.S
    ensures Receives(b.a.S, b.x, b.y) == old(Receives(b.a.S, b.x, b.y))
    ensures b.x == b.a.mnt || b.y == b.a.mnt ==> (Receives(b.a.S, b.x, b.y) <==> b.x == b.y)
    decreases b.y.rank
  {
    hide RingsClosed, PeersAgree, Contiguous, NoDup, Closes;
    AloneInOld(b.a);
    if b.y.master != null {
      assert b.y in old(b.y.master.slaves);
      ApartReception(JoiningPair(b.a, b.x, b.y.master));
    }
  }

  twostate lemma ApartJoined(b: Cloning)
    requires old(Fresh(b.a)) && old(WellFormed(b.a.S)) && old(Unused(b.a.S, b.id))
    requires old(!GoesBelow(b.a.from, b.f)) && b.f.apart && SameRings(b.a.S) && Labelled(b.a, b.id)
    requires forall m {:trigger m.master} :: m in b.a.S ==> m.master == old(m.master)
    requires forall m {:trigger m.slaves} :: m in b.a.S ==> m.slaves == old(m.slaves)
    ensures WellFormed(b.a.S)
    ensures HeardAs(b.a, b.f)
  {
    ApartWellFormed(JoiningId(b.a, b.id));
    hide Closed, RingsClosed, PeersAgree, SlavesMatch, Contiguous, Ranked, Receives;
    forall x, y | x in b.a.S && y in b.a.S
      ensures Receives(b.a.S, x, y) == old(Receives(b.a.S, x, y))
      ensures x == b.a.mnt || y == b.a.mnt ==> (Receives(b.a.S, x, y) <==> x == y)
    {
      ApartReception(JoiningPair(b.a, x, y));
    }
  }

  /**
   clone_mnt from the copied flags on. `spare` is the id mnt_alloc_group_id would hand out.
   The graph stays well formed exactly when the condition holds.
   */
  method Join(ghost S: set<Mount>, from: Mount, mnt: Mount, f: CloneFlags, spare: int)
    requires WellFormed(S) && Fresh(Joining(S, from, mnt)) && Unused(S, spare)
    requires f.makeShared && !KeepsId(from, f) ==> spare != 0
    modifies S`next, S`prev, S`ring, S`master, S`slaves, S`rank, S`group, S`shared
    ensures mnt.group == (if old(KeepsId(from, f)) then old(from.group) else if f.makeShared then spare else 0)
    ensures from.group == old(from.group)
    ensures mnt.shared <==> f.makeShared || old(from.shared && !GoesBelow(from, f) && !f.apart)
    ensures old(GoesBelow(from, f)) ==> mnt.master == from && from.slaves == [mnt] + old(from.slaves)
    ensures old(!GoesBelow(from, f)) && f.apart ==> mnt.master == null && mnt.next == mnt
    ensures old(!GoesBelow(from, f)) && !f.apart ==>
      mnt.master == old(from.master) && (f.makeShared || old(from.shared) ==> from.next == mnt)
    ensures old(Joinable(from, f)) ==> WellFormed(S) && HeardAs(Joining(S, from, mnt), f)
    ensures !old(Joinable(from, f)) ==> Mislabelled(from, mnt) || Parted(from, mnt)
  {
    hide Closed, RingsClosed, PeersAgree, SlavesMatch, Contiguous, Ranked, InsertedInRing, PlacedBeside, PlacedBelow, Receives;
    Neighbours(S, from);
    AloneIffSelfLinked(S, mnt);
    var id := if f.slave || f.apart || f.sharedToSlave then 0 else from.group;
    if f.makeShared && id == 0 { id := spare; }
    if f.slave || (f.sharedToSlave && from.shared) {
      JoinBelow(S, from, mnt, id, f.makeShared);
      BelowJoined(Cloning(Joining(S, from, mnt), f, id));
    } else if !f.apart {
      if f.makeShared || from.shared {
        JoinPeers(S, from, mnt, id, true);
        if id == from.group { PeersJoined(JoiningFlags(Joining(S, from, mnt), f)); }
      } else {
        JoinUnshared(S, from, mnt, f, id);
      }
    } else {
      Label(S, from, mnt, id, f.makeShared);
      ApartJoined(Cloning(Joining(S, from, mnt), f, id));
    }
  }

  /** A mount that stands alone is no way from one mount to another. */
  lemma {:induction false} AloneIsNoWay(S: set<Mount>, mnt: Mount, x: Mount, y: Mount)
    requires WellFormed(S) && WellFormed(S + {mnt}) && mnt !in S && x in S && y in S
    ensures Receives(S + {mnt}, x, y) == Receives(S, x, y)
    decreases y.rank
  {
    hide RingsClosed, PeersAgree, SlavesMatch, Contiguous;
    if y.master != null { AloneIsNoWay(S, mnt, x, y.master); }
  }

  /** Whom the clone hears and who hears it, and that nobody else notices, in terms of the graph without it. */
  twostate predicate CloneHeardAs(S: set<Mount>, from: Mount, new mnt: Mount, f: CloneFlags)
    requires from in S && old(WellFormed(S)) && WellFormed(S + {mnt})
    reads S, mnt
  {
    && (forall x, y {:trigger Receives(S + {mnt}, x, y)} :: x in S && y in S ==>
          Receives(S + {mnt}, x, y) == old(Receives(S, x, y)))
    && (forall x {:trigger Receives(S + {mnt}, x, mnt)} :: x in S ==>
          (Receives(S + {mnt}, x, mnt) <==> old(
             if GoesBelow(from, f) then Receives(S, x, from)
             else if f.apart then false
             else if f.makeShared || from.shared then Receives(S, x, from)
             else from.master != null && Receives(S, x, from.master))))
    && (forall y {:trigger Receives(S + {mnt}, mnt, y)} :: y in S ==>
          (Receives(S + {mnt}, mnt, y) <==> old(
             !GoesBelow(from, f) && !f.apart && (f.makeShared || from.shared) && Receives(S, from, y))))
  }

  /** A mount as it is allocated. */
  ghost predicate Blank(mnt: Mount)
    reads mnt
  {
    && mnt.next == mnt && mnt.prev == mnt && mnt.slaves == [] && mnt.master == null && mnt.group == 0
    && !mnt.shared && mnt.ring == [mnt] && mnt.rank == 0
  }

  /** Among the other mounts of `T`, reception is the same without `mnt`. */
  ghost predicate NoWayOver(T: set<Mount>, mnt: Mount)
    requires WellFormed(T) && WellFormed(T - {mnt})
    reads T
  {
    forall x, y {:trigger Receives(T, x, y)} :: x in T - {mnt} && y in T - {mnt} ==> Receives(T, x, y) == Receives(T - {mnt}, x, y)
  }

  twostate lemma HeardWithout(b: JoiningFlags)
    requires b.a.mnt in b.a.S && b.a.from in b.a.S && b.a.from != b.a.mnt
    requires old(WellFormed(b.a.S - {b.a.mnt})) && old(WellFormed(b.a.S)) && WellFormed(b.a.S) && HeardAs(b.a, b.f)
    requires old(NoWayOver(b.a.S, b.a.mnt))
    ensures WellFormed((b.a.S - {b.a.mnt}) + {b.a.mnt}) && CloneHeardAs(b.a.S - {b.a.mnt}, b.a.from, b.a.mnt, b.f)
  {
    hide RingsClosed, PeersAgree, SlavesMatch, Contiguous, Ranked, Receives;
    var T, mnt, from := b.a.S, b.a.mnt, b.a.from;
    var S := T - {mnt};
    assert S + {mnt} == T;
    forall x | x in S
      ensures Receives(S + {mnt}, x, mnt) <==> old(
        if GoesBelow(from, b.f) then Receives(S, x, from)
        else if b.f.apart then false
        else if b.f.makeShared || from.shared then Receives(S, x, from)
        else from.master != null && Receives(S, x, from.master))
    {
      assert old(Receives(T, x, from)) == old(Receives(S, x, from));
      if old(from.master) != null { assert old(Receives(T, x, from.master)) == old(Receives(S, x, from.master)); }
    }
    forall x, y | x in S && y in S ensures Receives(S + {mnt}, x, y) == old(Receives(S, x, y)) {
      assert old(Receives(T, x, y)) == old(Receives(S, x, y));
    }
    forall y | y in S
      ensures Receives(S + {mnt}, mnt, y) <==> old(
        !GoesBelow(from, b.f) && !b.f.apart && (b.f.makeShared || from.shared) && Receives(S, from, y))
    {
      assert old(Receives(T, from, y)) == old(Receives(S, from, y));
    }
  }

  /** The clone, new to the mounts `S`, joins them. */
  method JoinNew(ghost S: set<Mount>, from: Mount, mnt: Mount, f: CloneFlags, spare: int)
    requires WellFormed(S) && from in S && mnt !in S && Blank(mnt) && Unused(S, spare)
    requires f.makeShared && !KeepsId(from, f) ==> spare != 0
    modifies S`next, S`prev, S`ring, S`master, S`slaves, S`rank, S`group, S`shared
    modifies mnt`next, mnt`prev, mnt`ring, mnt`master, mnt`slaves, mnt`rank, mnt`group, mnt`shared
    ensures mnt.group == (if old(KeepsId(from, f)) then old(from.group) else if f.makeShared then spare else 0)
    ensures from.group == old(from.group)
    ensures mnt.shared <==> f.makeShared || old(from.shared && !GoesBelow(from, f) && !f.apart)
    ensures old(GoesBelow(from, f)) ==> mnt.master == from && from.slaves == [mnt] + old(from.slaves)
    ensures old(!GoesBelow(from, f)) && f.apart ==> mnt.master == null && mnt.next == mnt
    ensures old(!GoesBelow(from, f)) && !f.apart ==>
      mnt.master == old(from.master) && (f.makeShared || old(from.shared) ==> from.next == mnt)
    ensures old(Joinable(from, f)) <==> WellFormed(S + {mnt})
    ensures old(Joinable(from, f)) ==> CloneHeardAs(S, from, mnt, f)
  {
    hide Closed, RingsClosed, PeersAgree, SlavesMatch, Contiguous, Ranked, Receives, HeardAs, CloneHeardAs;
    AddFresh(S, mnt);
    ghost var T := S + {mnt};
    assert Fresh(Joining(T, from, mnt)) && Unused(T, spare);
    forall x, y | x in S && y in S ensures Receives(T, x, y) == Receives(S, x, y) { AloneIsNoWay(S, mnt, x, y); }
    assert T - {mnt} == S;
    Join(T, from, mnt, f, spare);
    if WellFormed(T) {
      MislabelledIsBroken(T, from, mnt);
      PartedIsBroken(T, from, mnt);
    }
    if old(Joinable(from, f)) { HeardWithout(JoiningFlags(Joining(T, from, mnt), f)); }
  }

  /** clone_mnt: nothing on a failed id allocation (`spare` 0), otherwise a new mount that has joined the graph. */
  method CloneMnt(ghost S: set<Mount>, from: Mount, root: Dentry, f: CloneFlags, spare: int) returns (mnt: Mount?)
    requires WellFormed(S) && from in S && Unused(S, spare)
    modifies S`next, S`prev, S`ring, S`master, S`slaves, S`rank, S`group, S`shared
    ensures mnt == null <==> f.makeShared && old(!KeepsId(from, f)) && spare == 0
    ensures mnt == null ==> WellFormed(S)
    ensures mnt != null ==> fresh(mnt) && mnt.root == root && mnt.isNew
    ensures mnt != null ==> mnt.unbindable == (old(from.unbindable) && !f.makeShared)
    ensures mnt != null ==> mnt.group == (if old(KeepsId(from, f)) then old(from.group) else if f.makeShared then spare else 0)
    ensures from.group == old(from.group)
    ensures mnt != null ==> (mnt.shared <==> f.makeShared || old(from.shared && !GoesBelow(from, f) && !f.apart))
    ensures mnt != null && old(GoesBelow(from, f)) ==> mnt.master == from && from.slaves == [mnt] + old(from.slaves)
    ensures mnt != null && old(!GoesBelow(from, f)) && f.apart ==> mnt.master == null && mnt.next == mnt
    ensures mnt != null && old(!GoesBelow(from, f)) && !f.apart ==>
      mnt.master == old(from.master) && (f.makeShared || old(from.shared) ==> from.next == mnt)
    ensures mnt != null ==> (old(Joinable(from, f)) <==> WellFormed(S + {mnt}))
    ensures mnt != null && old(Joinable(from, f)) ==> CloneHeardAs(S, from, mnt, f)
  {
    hide Closed, RingsClosed, PeersAgree, SlavesMatch, Contiguous, Ranked, Receives;
    if f.makeShared && (f.slave || f.apart || f.sharedToSlave || from.group == 0) && spare == 0 { return null; }
    mnt := new Mount(root);
    mnt.unbindable := from.unbindable && !f.makeShared;
    label L:
    JoinNew(S, from, mnt, f, spare);
    if old(Joinable(from, f)) {
      assert CloneHeardAs@L(S, from, mnt, f);
      assert forall x, y {:trigger Receives(S + {mnt}, x, y)} :: x in S && y in S ==>
        old@L(Receives(S, x, y)) == old(Receives(S, x, y));
    }
  }
}
