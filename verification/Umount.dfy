/** propagate_umount: which mounts go away with a mount, and where the mounts that covered them end up. */
module Umount {
  import opened Lists
  import opened Propagation
  import opened PropagationWalk

  /** Parent links stay among the mounts and lead upwards; child lists agree with them. */
  ghost predicate Tree(S: set<Mount>)
    reads S`parent, S`mounts, S`depth
  {
    && (forall m {:trigger m.parent} :: m in S ==> m.parent in S)
    && (forall m {:trigger m.depth} :: m in S ==> 0 <= m.depth && (m.parent != m ==> m.parent.depth < m.depth))
    && (forall m {:trigger m.mounts} :: m in S ==> NoDup(m.mounts))
    && (forall m, c {:trigger c in m.mounts} :: m in S && c in m.mounts ==> c in S && c.parent == m && c != m)
  }

  /** The mounts that are still mounted, and no others, are on the list of their parent. */
  ghost predicate Listed(S: set<Mount>)
    requires Tree(S)
    reads S`parent, S`mounts, S`depth, S`umount
  {
    forall c {:trigger c.umount} {:trigger c.parent} :: c in S && c.parent != c ==> (c in c.parent.mounts <==> !c.umount)
  }

  /** No mounted mount hangs below an unmounted one. */
  ghost predicate Sound(S: set<Mount>)
    requires Tree(S)
    reads S`parent, S`mounts, S`depth, S`umount
  {
    forall c {:trigger c.umount} :: c in S && !c.umount ==> !c.parent.umount
  }

  /** The lists propagate_umount keeps; `mnt_umounting` links a mount into `restore` or `visited`, or into neither. */
  datatype Pending = Pending(umounts: seq<Mount>, restore: seq<Mount>, visited: seq<Mount>)

  ghost predicate Within(older l: seq<Mount>, S: set<Mount>) {
    forall i :: 0 <= i < |l| ==> l[i] in S
  }

  lemma WithinRemove(l: seq<Mount>, S: set<Mount>, x: Mount)
    requires Within(l, S)
    ensures Within(Remove(l, x), S)
  {
  }

  /** The mounts that have been unmounted by now: those that were before, and those on the list. */
  ghost predicate Accounted(S: set<Mount>, p: Pending, was: set<Mount>)
    reads S`umount
  {
    && NoDup(p.umounts) && NoDup(p.restore) && Within(p.umounts, S) && Within(p.restore, S)
    && (forall m {:trigger m.umount} :: m in S ==>
         (m.umount <==> m in was || m in p.umounts) && (m in p.restore ==> !m.umount) && (m in p.visited ==> m.umount))
    && (forall m :: m in S && m in p.umounts ==> m !in was)
  }

  /** Marks: only on mounts waiting to be restored, only on candidates, and only once nothing but covers is left on them. */
  ghost predicate Marks(S: set<Mount>, p: Pending, cand: set<Mount>)
    requires Tree(S)
    reads S`parent, S`mounts, S`depth, S`marked, S`mountpoint, S`root, S`locked
  {
    && (forall m {:trigger m.marked} :: m in S && m.marked ==> m in p.restore && m in cand && m.locked)
    && (forall m :: m in S && m in p.umounts ==> m in cand)
    && (forall m, c {:trigger c in m.mounts} :: m in S && (m in p.umounts || m.marked) && c in m.mounts ==>
         c.mountpoint == m.root || c.marked)
  }

  /** A locked mount goes only together with its parent, and not when it covers it. */
  ghost predicate LocksKept(S: set<Mount>, p: Pending)
    requires Tree(S)
    reads S`parent, S`mounts, S`depth, S`locked, S`umount, S`mountpoint, S`root
  {
    forall m {:trigger m.locked} :: m in S && m in p.umounts && m.locked ==> m.parent.umount && m.mountpoint != m.parent.root
  }

  ghost predicate Working(S: set<Mount>, p: Pending, was: set<Mount>, cand: set<Mount>)
    reads S`parent, S`mounts, S`depth, S`umount, S`marked, S`mountpoint, S`root, S`locked
  {
    Tree(S) && Listed(S) && Accounted(S, p, was) && Marks(S, p, cand) && LocksKept(S, p)
  }

  twostate predicate SameShape(S: set<Mount>)
    reads S`parent, S`depth, S`mountpoint, S`root, S`locked
  {
    && (forall m {:trigger m.parent} :: m in S ==> m.parent == old(m.parent))
    && (forall m {:trigger m.depth} :: m in S ==> m.depth == old(m.depth))
    && (forall m {:trigger m.mountpoint} :: m in S ==> m.mountpoint == old(m.mountpoint))
    && (forall m {:trigger m.root} :: m in S ==> m.root == old(m.root))
    && (forall m {:trigger m.locked} :: m in S ==> m.locked == old(m.locked))
  }

  /** umount_one(mnt): unmarked, flagged, off its parent's list. */
  twostate predicate UmountedOne(S: set<Mount>, mnt: Mount)
    reads S`umount, S`marked, S`mounts
  {
    && (forall m {:trigger m.umount} :: m in S ==> (m.umount <==> m == mnt || old(m.umount)))
    && (forall m {:trigger m.marked} :: m in S ==> (m.marked <==> m != mnt && old(m.marked)))
    && (forall m {:trigger m.mounts} :: m in S ==> m.mounts == old(if m == mnt.parent then Remove(m.mounts, mnt) else m.mounts))
  }

  datatype Removal = Removal(S: set<Mount>, p: Pending, was: set<Mount>, cand: set<Mount>, mnt: Mount)

  /** When umount_one may be applied. */
  ghost predicate Removable(a: Removal)
    reads a.S, a.mnt, a.mnt.parent
  {
    && a.mnt in a.S && !a.mnt.umount && a.mnt in a.cand && a.mnt !in a.was
    && a.mnt.parent != a.mnt
    && (a.mnt.locked ==> a.mnt.parent.umount && a.mnt.mountpoint != a.mnt.parent.root)
    && (forall c :: c in a.S && c in a.mnt.mounts ==> c.mountpoint == a.mnt.root || c.marked)
  }

  ghost function Removed(a: Removal): Pending {
    Pending(a.p.umounts + [a.mnt], Remove(a.p.restore, a.mnt), a.p.visited)
  }

  twostate lemma RemovalTree(a: Removal)
    requires old(Tree(a.S)) && a.mnt in a.S && UmountedOne(a.S, a.mnt) && SameShape(a.S)
    ensures Tree(a.S)
  {
    hide Remove;
    RemoveContents(old(a.mnt.parent.mounts), a.mnt);
  }

  lemma RemovedContents(a: Removal)
    requires NoDup(a.p.umounts) && NoDup(a.p.restore) && Within(a.p.umounts, a.S) && Within(a.p.restore, a.S)
    requires a.mnt in a.S && a.mnt !in a.p.umounts
    ensures var q := Removed(a);
      && NoDup(q.umounts) && NoDup(q.restore) && Within(q.umounts, a.S) && Within(q.restore, a.S) && q.visited == a.p.visited
      && (forall m :: m in a.S ==> (m in q.restore <==> m in a.p.restore && m != a.mnt))
      && (forall m :: m in a.S ==> (m in q.umounts <==> m in a.p.umounts || m == a.mnt))
  {
    hide Remove;
    RemoveContents(a.p.restore, a.mnt);
    WithinRemove(a.p.restore, a.S, a.mnt);
    NoDupAppend(a.p.umounts, [a.mnt]);
  }

  twostate lemma RemovalAccounted(a: Removal)
    requires old(Accounted(a.S, a.p, a.was)) && old(Removable(a)) && UmountedOne(a.S, a.mnt)
    ensures Accounted(a.S, Removed(a), a.was)
  {
    hide Removed, Remove, NoDup, Within;
    RemovedContents(a);
  }

  twostate lemma RemovalMarks(a: Removal)
    requires old(Tree(a.S)) && old(Marks(a.S, a.p, a.cand)) && old(Accounted(a.S, a.p, a.was)) && old(Removable(a))
    requires UmountedOne(a.S, a.mnt) && SameShape(a.S)
    requires Tree(a.S)
    ensures Marks(a.S, Removed(a), a.cand)
  {
    hide Remove, NoDup;
    RemoveContents(a.p.restore, a.mnt);
    RemoveContents(old(a.mnt.parent.mounts), a.mnt);
  }

  twostate lemma RemovalKeepsWorking(a: Removal)
    requires old(Working(a.S, a.p, a.was, a.cand)) && old(Removable(a))
    requires UmountedOne(a.S, a.mnt) && SameShape(a.S)
    ensures Working(a.S, Removed(a), a.was, a.cand)
  {
    hide Remove, NoDup, Marks, Accounted;
    RemovalTree(a);
    RemovalAccounted(a);
    RemovalMarks(a);
    RemoveContents(old(a.mnt.parent.mounts), a.mnt);
  }

  method UmountOne(ghost S: set<Mount>, mnt: Mount, p: Pending, ghost was: set<Mount>, ghost cand: set<Mount>) returns (q: Pending)
    requires Working(S, p, was, cand) && Removable(Removal(S, p, was, cand, mnt))
    modifies S`umount, S`marked, S`mounts
    ensures Working(S, q, was, cand)
    ensures q == Removed(Removal(S, p, was, cand, mnt))
    ensures UmountedOne(S, mnt)
  {
    hide Tree, Listed, Accounted, Marks, LocksKept, Remove, Removable;
    ParentIn(S, p, was, cand, mnt);
    mnt.marked := false;
    mnt.umount := true;
    mnt.parent.mounts := Remove(mnt.parent.mounts, mnt);
    q := Pending(p.umounts + [mnt], Remove(p.restore, mnt), p.visited);
    assert UmountedOne(S, mnt) && SameShape(S);
    RemovalKeepsWorking(Removal(S, p, was, cand, mnt));
  }

  lemma ParentIn(S: set<Mount>, p: Pending, was: set<Mount>, cand: set<Mount>, mnt: Mount)
    requires Working(S, p, was, cand) && Removable(Removal(S, p, was, cand, mnt))
    ensures mnt in S && mnt.parent in S
  {
  }

  /** Everything on `mnt` is a cover or has been unmounted already, as far as can be told. */
  ghost predicate Bare(S: set<Mount>, mnt: Mount)
    reads S`mountpoint, S`marked, mnt`mounts, mnt`root
  {
    forall c :: c in S && c in mnt.mounts ==> c.mountpoint == mnt.root || c.marked
  }

  /** The loop over the children in __propagate_umount. */
  method CheckBare(ghost S: set<Mount>, mnt: Mount, p: Pending, ghost was: set<Mount>, ghost cand: set<Mount>) returns (bare: bool)
    requires Working(S, p, was, cand) && mnt in S
    ensures bare <==> Bare(S, mnt)
  {
    hide Working;
    ChildrenMarked(S, mnt, p, was, cand);
    for i := 0 to |mnt.mounts|
      invariant forall j {:trigger mnt.mounts[j]} :: 0 <= j < i ==> mnt.mounts[j].mountpoint == mnt.root || mnt.mounts[j].marked
    {
      var child := mnt.mounts[i];
      assert child in mnt.mounts;
      if child.mountpoint != mnt.root && !((child in p.restore || child in p.visited) && child.marked) {
        return false;
      }
    }
    return true;
  }

  lemma ChildrenMarked(S: set<Mount>, mnt: Mount, p: Pending, was: set<Mount>, cand: set<Mount>)
    requires Working(S, p, was, cand) && mnt in S
    ensures forall c :: c in mnt.mounts ==> c in S && (c.marked ==> c in p.restore)
  {
  }

  /** While candidates are being collected, only candidates wait to be restored. */
  ghost predicate OnlyCandidates(S: set<Mount>, p: Pending, cand: set<Mount>) {
    forall m :: m in S && m in p.restore ==> m in cand
  }

  /** list_move_tail(&mnt->mnt_umounting, to_restore) */
  function MovedToRestore(p: Pending, mnt: Mount): (q: Pending)
  {
    p.(restore := Remove(p.restore, mnt) + [mnt])
  }

  lemma MovedContents(S: set<Mount>, p: Pending, mnt: Mount)
    requires NoDup(p.restore) && Within(p.restore, S) && mnt in S
    ensures var q := MovedToRestore(p, mnt);
      && NoDup(q.restore) && Within(q.restore, S) && q.umounts == p.umounts && q.visited == p.visited
      && forall m :: m in S ==> (m in q.restore <==> m in p.restore || m == mnt)
  {
    hide Remove;
    RemoveContents(p.restore, mnt);
    WithinRemove(p.restore, S, mnt);
    NoDupAppend(Remove(p.restore, mnt), [mnt]);
  }

  twostate predicate OnlyMarked(S: set<Mount>, mnt: Mount)
    reads S
  {
    && SameShape(S)
    && (forall m {:trigger m.umount} :: m in S ==> m.umount == old(m.umount))
    && (forall m {:trigger m.mounts} :: m in S ==> m.mounts == old(m.mounts))
    && (forall m {:trigger m.marked} :: m in S && m != mnt ==> m.marked == old(m.marked))
  }

  twostate lemma MarkTree(a: Removal)
    requires old(Tree(a.S)) && old(Listed(a.S)) && OnlyMarked(a.S, a.mnt)
    ensures Tree(a.S) && Listed(a.S)
  {
    hide NoDup;
  }

  twostate lemma MarkMarks(a: Removal)
    requires old(Tree(a.S)) && old(Accounted(a.S, a.p, a.was)) && old(Marks(a.S, a.p, a.cand)) && a.mnt in a.S
    requires OnlyMarked(a.S, a.mnt)
    requires Tree(a.S)
    requires a.mnt.marked == old(a.mnt.marked) || (a.mnt.marked && a.mnt.locked && a.mnt in a.cand && old(Bare(a.S, a.mnt)))
    ensures Marks(a.S, MovedToRestore(a.p, a.mnt), a.cand)
  {
    hide MovedToRestore, NoDup;
    MovedContents(a.S, a.p, a.mnt);
  }

  twostate lemma MarkAccounted(a: Removal)
    requires old(Accounted(a.S, a.p, a.was)) && a.mnt in a.S && old(!a.mnt.umount) && OnlyMarked(a.S, a.mnt)
    ensures Accounted(a.S, MovedToRestore(a.p, a.mnt), a.was)
  {
    hide MovedToRestore, NoDup, Within;
    MovedContents(a.S, a.p, a.mnt);
  }

  twostate lemma MarkLocks(a: Removal)
    requires old(Tree(a.S)) && old(LocksKept(a.S, a.p)) && a.mnt in a.S && OnlyMarked(a.S, a.mnt)
    requires Tree(a.S)
    ensures LocksKept(a.S, MovedToRestore(a.p, a.mnt))
  {
    hide Remove, NoDup;
  }

  /** Waiting to be restored, with or without a mark, keeps the state in order. */
  twostate lemma MarkKeepsWorking(a: Removal)
    requires old(Working(a.S, a.p, a.was, a.cand)) && a.mnt in a.S && old(!a.mnt.umount)
    requires OnlyMarked(a.S, a.mnt)
    requires a.mnt.marked == old(a.mnt.marked) || (a.mnt.marked && a.mnt.locked && a.mnt in a.cand && old(Bare(a.S, a.mnt)))
    ensures Working(a.S, MovedToRestore(a.p, a.mnt), a.was, a.cand)
  {
    hide MovedToRestore, Accounted, Marks, Listed, LocksKept, Bare, Tree;
    MarkTree(a);
    MarkAccounted(a);
    MarkMarks(a);
    MarkLocks(a);
  }

  // ---------------------------------------------------------------- collecting the candidates

  /** Every mount in `waiting`, except `but`, that is neither unmounted nor marked still carries something that stays. */
  ghost predicate Settled(S: set<Mount>, waiting: seq<Mount>, but: Mount?)
    reads S`mountpoint, S`marked, S`mounts, S`root, S`umount
  {
    forall c {:trigger c.marked} :: c in S && c in waiting && c != but && !c.umount && !c.marked ==> !Bare(S, c)
  }

  ghost predicate Covered(p: Pending, c: Mount)
    reads c`umount
  {
    c.umount || c in p.restore
  }

  /** The state in which __propagate_umount looks at mounts; `but` is the one it looks at next. */
  ghost predicate Collecting(S: set<Mount>, p: Pending, was: set<Mount>, cand: set<Mount>, but: Mount?)
    reads S`parent, S`mounts, S`depth, S`umount, S`marked, S`mountpoint, S`root, S`locked
  {
    && Working(S, p, was, cand)
    && OnlyCandidates(S, p, cand) && (forall c {:trigger c.parent} :: c in S && c in cand ==> c.parent != c)
    && Settled(S, p.restore, but)
  }

  /** Progress only adds to what is covered, and only `mnt` is newly waiting. */
  twostate predicate Advanced(S: set<Mount>, p: Pending, new q: Pending, mnt: Mount)
    reads S`umount
  {
    && q.visited == p.visited
    && (forall m {:trigger m.umount} :: m in S && (old(m.umount) || m in p.restore || m == mnt) ==> m.umount || m in q.restore)
    && (forall m :: m in S && m in q.restore ==> m in p.restore || m == mnt)
  }

  /** Unmounting or marking a mount can free only its parent. */
  twostate lemma FreesOnlyParent(a: Removal)
    requires old(Tree(a.S)) && a.mnt in a.S && old(!a.mnt.marked) && SameShape(a.S)
    requires forall m {:trigger m.marked} :: m in a.S && m != a.mnt ==> m.marked == old(m.marked)
    requires forall m {:trigger m.mounts} :: m in a.S && m != a.mnt.parent ==> m.mounts == old(m.mounts)
    requires forall m {:trigger m.umount} :: m in a.S ==> (m.umount <==> old(m.umount) || (m == a.mnt && m.umount))
    requires old(Settled(a.S, a.p.restore, a.mnt)) && (a.mnt.umount || a.mnt.marked)
    ensures Settled(a.S, a.p.restore + [a.mnt], a.mnt.parent)
  {
    hide NoDup;
  }

  twostate lemma MoveSettles(a: Removal)
    requires OnlyMarked(a.S, a.mnt) && a.mnt in a.S && a.mnt.marked == old(a.mnt.marked)
    requires old(Settled(a.S, a.p.restore, a.mnt)) && old(!Bare(a.S, a.mnt))
    ensures Settled(a.S, a.p.restore + [a.mnt], null)
  {
  }

  lemma SettledFor(S: set<Mount>, l: seq<Mount>, k: seq<Mount>, but: Mount?)
    requires Settled(S, l, but) && forall m :: m in S && m in k ==> m in l
    ensures Settled(S, k, but)
  {
  }

  twostate lemma MoveAdvances(a: Removal)
    requires OnlyMarked(a.S, a.mnt) && a.mnt in a.S && NoDup(a.p.restore) && Within(a.p.restore, a.S)
    ensures Advanced(a.S, a.p, MovedToRestore(a.p, a.mnt), a.mnt)
  {
    hide MovedToRestore, NoDup, Within;
    MovedContents(a.S, a.p, a.mnt);
  }

  twostate lemma RemovalAdvances(a: Removal)
    requires UmountedOne(a.S, a.mnt) && old(Accounted(a.S, a.p, a.was)) && a.mnt in a.S && old(!a.mnt.umount)
    ensures Advanced(a.S, a.p, Removed(a), a.mnt)
  {
    hide Remove, NoDup, Within;
    RemovedContents(a);
  }

  /** What the first test of __propagate_umount leaves to be done. */
  lemma Untouched(a: Removal)
    requires Collecting(a.S, a.p, a.was, a.cand, a.mnt) && a.mnt in a.S && (a.mnt.umount || a.mnt in a.cand)
    ensures Accounted(a.S, a.p, a.was) && NoDup(a.p.restore) && Within(a.p.restore, a.S) && Tree(a.S)
    ensures a.mnt.umount || a.mnt.marked ==> Collecting(a.S, a.p, a.was, a.cand, null) && Covered(a.p, a.mnt)
    ensures !a.mnt.umount && Bare(a.S, a.mnt) && !a.mnt.locked ==> Removable(a)
  {
    hide NoDup, Within;
  }

  twostate lemma MovedCollecting(a: Removal)
    requires old(Collecting(a.S, a.p, a.was, a.cand, a.mnt)) && a.mnt in a.S && a.mnt in a.cand && old(!a.mnt.umount)
    requires OnlyMarked(a.S, a.mnt)
    requires if old(Bare(a.S, a.mnt)) then a.mnt.marked && a.mnt.locked && old(!a.mnt.marked) else a.mnt.marked == old(a.mnt.marked)
    ensures Collecting(a.S, MovedToRestore(a.p, a.mnt), a.was, a.cand, if old(Bare(a.S, a.mnt)) then a.mnt.parent else null)
  {
    hide MovedToRestore, NoDup, Within, Marks, Listed, Bare, LocksKept, Settled, Tree;
    MarkKeepsWorking(a);
    MovedContents(a.S, a.p, a.mnt);
    var q := MovedToRestore(a.p, a.mnt);
    if old(Bare(a.S, a.mnt)) {
      FreesOnlyParent(a);
      SettledFor(a.S, a.p.restore + [a.mnt], q.restore, a.mnt.parent);
    } else {
      MoveSettles(a);
      SettledFor(a.S, a.p.restore + [a.mnt], q.restore, null);
    }
  }

  twostate lemma RemovedCollecting(a: Removal)
    requires old(Collecting(a.S, a.p, a.was, a.cand, a.mnt)) && old(Removable(a)) && old(!a.mnt.marked)
    requires UmountedOne(a.S, a.mnt) && SameShape(a.S) && Working(a.S, Removed(a), a.was, a.cand)
    ensures Collecting(a.S, Removed(a), a.was, a.cand, a.mnt.parent)
  {
    hide Removed, NoDup, Within, Marks, Listed, Bare, LocksKept, Settled, Tree;
    RemovedContents(a);
    FreesOnlyParent(a);
    SettledFor(a.S, a.p.restore + [a.mnt], Removed(a).restore, a.mnt.parent);
  }

  /** __propagate_umount */
  method TryUmount(ghost S: set<Mount>, mnt: Mount, p: Pending, ghost was: set<Mount>, ghost cand: set<Mount>)
    returns (q: Pending, progress: bool)
    requires Collecting(S, p, was, cand, mnt) && mnt in S && (mnt.umount || mnt in cand)
    modifies S`umount, S`marked, S`mounts
    ensures Collecting(S, q, was, cand, if progress then mnt.parent else null)
    ensures Advanced(S, p, q, mnt)
    ensures old(mnt.umount || mnt.marked) ==> q == p && !progress && OnlyMarked(S, mnt) && mnt.marked == old(mnt.marked)
    ensures old(!mnt.umount && !mnt.marked) ==> progress == old(Bare(S, mnt))
    ensures progress && !mnt.locked ==> q == Removed(Removal(S, p, was, cand, mnt)) && UmountedOne(S, mnt)
    ensures old(!mnt.umount && !mnt.marked) && (mnt.locked || !progress) ==>
      q == MovedToRestore(p, mnt) && OnlyMarked(S, mnt) && mnt.marked == progress
  {
    hide Settled, Bare, Accounted, NoDup, Within, Marks, Listed, LocksKept, Tree, Remove, OnlyCandidates;
    ghost var a := Removal(S, p, was, cand, mnt);
    Untouched(a);
    if mnt.umount || mnt.marked {
      return p, false;
    }
    progress := CheckBare(S, mnt, p, was, cand);
    if progress && !mnt.locked {
      q := UmountOne(S, mnt, p, was, cand);
      RemovedCollecting(a);
      RemovalAdvances(a);
    } else {
      mnt.marked := progress;
      q := MovedToRestore(p, mnt);
      assert OnlyMarked(S, mnt);
      MovedCollecting(a);
      MoveAdvances(a);
    }
  }
}
