/** The second half of propagate_umount: marked children go with their parents, and covers are put where their parents were. */
module UmountFinish {
  import opened Lists
  import opened Propagation
  import opened Umount

  // ---------------------------------------------------------------- umount_list

  ghost function Live(S: set<Mount>): set<Mount>
    reads S`umount
  {
    set c | c in S && !c.umount
  }

  /** Below the mounts in `gone`, with the exception of those in `todo`, only covers are left, and they wait to be restored. */
  ghost predicate Cleared(S: set<Mount>, p: Pending, gone: seq<Mount>, todo: seq<Mount>)
    reads S`parent, S`mountpoint, S`umount, S`root
  {
    forall c {:trigger c.umount} :: c in S && !c.umount && c.parent in S && c.parent in gone && c !in todo ==>
      c.mountpoint == c.parent.root && c in p.restore
  }

  /** One step of umount_list. */
  twostate predicate ClearedOne(S: set<Mount>, p: Pending, new q: Pending, child: Mount)
    requires child in S && child.parent in S
    reads S`umount, S`mountpoint, S`root, S`parent
  {
    && p.umounts <= q.umounts
    && (if child.umount then Live(S) == old(Live(S)) - {child} else Live(S) == old(Live(S)) && q.umounts == p.umounts)
    && (forall m {:trigger m.umount} :: m in S && !m.umount ==> old(!m.umount) && (m in p.restore || m == child ==> m in q.restore))
    && (forall m {:trigger m.umount} :: m in S && m.umount ==> old(m.umount) || m == child)
    && (!child.umount ==> child.mountpoint == child.parent.root && child in q.restore)
  }

  ghost predicate CanClear(a: Removal)
    reads a.S
  {
    && Working(a.S, a.p, a.was, a.cand) && a.mnt in a.S && !a.mnt.umount
    && a.mnt.parent in a.S && a.mnt.parent in a.p.umounts && a.mnt.parent != a.mnt
  }

  lemma ClearableFacts(a: Removal)
    requires CanClear(a)
    ensures a.mnt.parent.umount && Accounted(a.S, a.p, a.was) && NoDup(a.p.restore) && Within(a.p.restore, a.S)
    ensures a.mnt.mountpoint != a.mnt.parent.root ==> a.mnt.marked && Removable(a)
  {
    hide NoDup, Within;
    assert a.mnt in a.mnt.parent.mounts;
  }

  datatype Clearing = Clearing(r: Removal, waiting: seq<Mount>)

  twostate lemma RemovalKeepsSettled(b: Clearing)
    requires old(CanClear(b.r)) && old(b.r.mnt.marked) && old(b.r.mnt.parent.umount)
    requires UmountedOne(b.r.S, b.r.mnt) && SameShape(b.r.S)
    ensures old(Settled(b.r.S, b.waiting, null)) ==> Settled(b.r.S, b.waiting, null)
  {
    hide NoDup, Within, Remove, Listed, Marks, LocksKept, Accounted;
  }

  twostate lemma RemovalClears(a: Removal)
    requires old(CanClear(a)) && UmountedOne(a.S, a.mnt) && SameShape(a.S)
    requires NoDup(a.p.restore) && Within(a.p.restore, a.S)
    ensures a.mnt.parent in a.S && ClearedOne(a.S, a.p, Removed(a), a.mnt)
  {
    hide NoDup, Within, Remove, Listed, Marks, LocksKept, Accounted, Tree;
    RemoveContents(a.p.restore, a.mnt);
  }

  lemma KeepAsCover(a: Removal)
    requires CanClear(a) && NoDup(a.p.restore) && Within(a.p.restore, a.S)
    ensures Working(a.S, MovedToRestore(a.p, a.mnt), a.was, a.cand)
    ensures forall m :: m in a.S && (m in a.p.restore || m == a.mnt) ==> m in MovedToRestore(a.p, a.mnt).restore
  {
    hide NoDup, Within, MovedToRestore, Listed;
    MovedContents(a.S, a.p, a.mnt);
    var q := MovedToRestore(a.p, a.mnt);
    assert Accounted(a.S, q, a.was);
    assert Marks(a.S, q, a.cand);
    assert LocksKept(a.S, q);
  }

  /** The body of the inner loop of umount_list. */
  method ClearChild(ghost S: set<Mount>, child: Mount, p: Pending, ghost was: set<Mount>, ghost cand: set<Mount>, ghost waiting: seq<Mount>)
    returns (q: Pending)
    requires CanClear(Removal(S, p, was, cand, child))
    modifies S`umount, S`marked, S`mounts
    ensures Working(S, q, was, cand) && child.parent in S && ClearedOne(S, p, q, child)
    ensures old(Settled(S, waiting, null)) ==> Settled(S, waiting, null)
  {
    hide Working, Settled, Removable, NoDup, Within, Remove;
    ghost var a := Removal(S, p, was, cand, child);
    ClearableFacts(a);
    if child.mountpoint == child.parent.root {
      q := MovedToRestore(p, child);
      KeepAsCover(a);
    } else {
      q := UmountOne(S, child, p, was, cand);
      RemovalKeepsSettled(Clearing(a, waiting));
      RemovalClears(a);
    }
  }

  datatype Stretch = Stretch(r: Removal, gone: seq<Mount>, todo: seq<Mount>)

  twostate lemma OneMoreCleared(c: Stretch, new q: Pending)
    requires c.r.mnt in c.r.S && c.r.mnt.parent in c.r.S && SameShape(c.r.S)
    requires ClearedOne(c.r.S, c.r.p, q, c.r.mnt) && c.todo != [] && c.todo[0] == c.r.mnt
    requires old(Cleared(c.r.S, c.r.p, c.gone, c.todo))
    ensures Cleared(c.r.S, q, c.gone, c.todo[1..])
  {
  }

  /** The inner loop of umount_list. */
  method ClearChildren(ghost S: set<Mount>, mnt: Mount, p: Pending, ghost was: set<Mount>, ghost cand: set<Mount>,
                       ghost waiting: seq<Mount>, ghost gone: seq<Mount>)
    returns (q: Pending)
    requires Working(S, p, was, cand) && mnt in S && mnt in p.umounts && Within(gone, S)
    requires Cleared(S, p, gone, [])
    modifies S`umount, S`marked, S`mounts
    ensures Working(S, q, was, cand) && Cleared(S, q, gone + [mnt], []) && p.umounts <= q.umounts
    ensures old(Settled(S, waiting, null)) ==> Settled(S, waiting, null)
    ensures (Live(S) == old(Live(S)) && q.umounts == p.umounts) || Live(S) < old(Live(S))
    ensures forall m {:trigger m.umount} :: m in S && m in p.restore ==> m.umount || m in q.restore
    ensures forall m {:trigger m.umount} :: m in S && old(m.umount) ==> m.umount
  {
    hide Working, Settled, NoDup, Within, Cleared;
    q := p;
    var children := mnt.mounts;
    StartClearing(S, mnt, p, was, cand, gone);
    var i := 0;
    while i < |children|
      invariant 0 <= i <= |children|
      invariant Working(S, q, was, cand) && p.umounts <= q.umounts
      invariant Cleared(S, q, gone + [mnt], children[i..])
      invariant Waiting(S, children[i..], mnt)
      invariant old(Settled(S, waiting, null)) ==> Settled(S, waiting, null)
      invariant (Live(S) == old(Live(S)) && q.umounts == p.umounts) || Live(S) < old(Live(S))
      invariant forall m {:trigger m.umount} :: m in S && m in p.restore ==> m.umount || m in q.restore
      invariant forall m {:trigger m.umount} :: m in S && old(m.umount) ==> m.umount
    {
      ghost var a := Removal(S, q, was, cand, children[i]);
      NextChild(S, mnt, q, was, cand, children[i..]);
      label L:
      q := ClearChild(S, children[i], q, was, cand, waiting);
      OneMoreCleared@L(Stretch(a, gone + [mnt], children[i..]), q);
      StillWaiting@L(WaitingIn(S, children[i..], mnt));
      assert children[i..][1..] == children[i + 1..];
      i := i + 1;
    }
    assert children[i..] == [];
  }

  /** The children that umount_list has yet to look at. */
  ghost predicate Waiting(S: set<Mount>, todo: seq<Mount>, mnt: Mount)
    reads S`umount, S`parent
  {
    NoDup(todo) && Within(todo, S) && forall c {:trigger c.umount} :: c in S && c in todo ==> !c.umount && c.parent == mnt && c != mnt
  }

  lemma StartClearing(S: set<Mount>, mnt: Mount, p: Pending, was: set<Mount>, cand: set<Mount>, gone: seq<Mount>)
    requires Working(S, p, was, cand) && mnt in S && mnt in p.umounts && Cleared(S, p, gone, [])
    ensures Cleared(S, p, gone + [mnt], mnt.mounts) && Waiting(S, mnt.mounts, mnt)
  {
    hide NoDup, Marks, LocksKept;
    forall i | 0 <= i < |mnt.mounts| ensures mnt.mounts[i] in S { assert mnt.mounts[i] in mnt.mounts; }
    assert mnt.umount;
    forall c | c in S && c in mnt.mounts ensures !c.umount && c.parent == mnt && c != mnt { }
  }

  lemma NextChild(S: set<Mount>, mnt: Mount, p: Pending, was: set<Mount>, cand: set<Mount>, todo: seq<Mount>)
    requires Working(S, p, was, cand) && mnt in S && mnt in p.umounts && Waiting(S, todo, mnt) && todo != []
    ensures todo[0] in S && CanClear(Removal(S, p, was, cand, todo[0]))
  {
    hide Working, NoDup;
    assert todo[0] in todo;
  }

  /** A mount of a list of mounts to be restored. */
  datatype WaitingIn = WaitingIn(S: set<Mount>, waiting: seq<Mount>, m: Mount)

  twostate lemma StillWaiting(c: WaitingIn)
    requires old(Waiting(c.S, c.waiting, c.m)) && c.waiting != [] && c.waiting[0] in c.S
    requires forall m {:trigger m.parent} :: m in c.S ==> m.parent == old(m.parent)
    requires forall m {:trigger m.umount} :: m in c.S && m.umount ==> old(m.umount) || m == c.waiting[0]
    ensures Waiting(c.S, c.waiting[1..], c.m)
  {
    forall m | m in c.S && m in c.waiting[1..] ensures m in c.waiting && m != c.waiting[0] {
      var i :| 0 <= i < |c.waiting[1..]| && c.waiting[1..][i] == m;
      assert c.waiting[i + 1] == m;
    }
  }

  /** umount_list: the list grows while it is walked. */
  method UmountList(ghost S: set<Mount>, p: Pending, ghost was: set<Mount>, ghost cand: set<Mount>, ghost waiting: seq<Mount>)
    returns (q: Pending)
    requires Working(S, p, was, cand)
    modifies S`umount, S`marked, S`mounts
    ensures Working(S, q, was, cand) && Cleared(S, q, q.umounts, [])
    ensures old(Settled(S, waiting, null)) ==> Settled(S, waiting, null)
    ensures forall m {:trigger m.umount} :: m in S && m in p.restore ==> m.umount || m in q.restore
    ensures forall m {:trigger m.umount} :: m in S && old(m.umount) ==> m.umount
  {
    hide Tree, Listed, Marks, LocksKept, Settled, NoDup, Cleared;
    q := p;
    assert Cleared(S, q, [], []) by { NothingGone(S, q); }
    var i := 0;
    while i < |q.umounts|
      invariant 0 <= i <= |q.umounts|
      invariant Working(S, q, was, cand)
      invariant Cleared(S, q, q.umounts[..i], [])
      invariant old(Settled(S, waiting, null)) ==> Settled(S, waiting, null)
      invariant forall m {:trigger m.umount} :: m in S && m in p.restore ==> m.umount || m in q.restore
      invariant forall m {:trigger m.umount} :: m in S && old(m.umount) ==> m.umount
      decreases Live(S), |q.umounts| - i
    {
      ghost var gone := q.umounts[..i];
      var mnt := q.umounts[i];
      q := ClearChildren(S, mnt, q, was, cand, waiting, gone);
      assert q.umounts[..i + 1] == gone + [mnt];
      i := i + 1;
    }
    assert q.umounts[..i] == q.umounts;
  }

  lemma NothingGone(S: set<Mount>, p: Pending)
    ensures Cleared(S, p, [], [])
  {
  }

  // ---------------------------------------------------------------- restore_mounts

  /** Above a mounted mount, and above the ones unmounted just now, the unmounted ones are all from just now. */
  ghost predicate Grounded(S: set<Mount>, gone: seq<Mount>)
    requires Tree(S)
    reads S`parent, S`mounts, S`depth, S`umount
  {
    forall m {:trigger m.parent} :: m in S && (!m.umount || m in gone) ==>
      (m.parent.umount ==> m.parent in gone) && (m in gone ==> m.parent != m)
  }

  /** Every mount of `way` is gone, and `way` leads from `from` upwards, one parent after the other. */
  ghost predicate GoneWay(S: set<Mount>, way: seq<Mount>, from: Mount)
    requires Within(way, S)
    reads S`parent, S`umount
  {
    && |way| > 0 && way[0] == from
    && (forall i {:trigger way[i]} :: 0 <= i < |way| ==> way[i].umount)
    && (forall i {:trigger way[i + 1]} :: 0 <= i < |way| - 1 ==> way[i + 1] == way[i].parent)
  }

  /**
   (parent, mp) is where `c` belongs: where it is if its parent stays, and otherwise the place of the mount at the upper
   end of the gone ones above it.
   */
  ghost predicate Belongs(S: set<Mount>, c: Mount, parent: Mount, mp: Dentry)
    reads S`parent, S`mountpoint, S`umount, c
  {
    && c.parent in S && parent in S && !parent.umount
    && if !c.parent.umount then parent == c.parent && mp == c.mountpoint
       else exists way: seq<Mount> :: Within(way, S) && GoneWay(S, way, c.parent)
              && parent == way[|way| - 1].parent && mp == way[|way| - 1].mountpoint
  }

  /** The climb in restore_mounts. */
  method FindSpot(ghost S: set<Mount>, mnt: Mount, ghost gone: seq<Mount>) returns (parent: Mount, mp: Dentry)
    requires Tree(S) && Grounded(S, gone) && mnt in S && !mnt.umount
    ensures parent.depth <= mnt.parent.depth
    ensures Belongs(S, mnt, parent, mp)
  {
    hide NoDup;
    parent, mp := mnt.parent, mnt.mountpoint;
    ghost var way := [];
    while parent.umount
      invariant parent in S && (parent.umount ==> parent in gone) && parent.depth <= mnt.parent.depth && Within(way, S)
      invariant if way == [] then parent == mnt.parent && mp == mnt.mountpoint
        else GoneWay(S, way, mnt.parent) && parent == way[|way| - 1].parent && mp == way[|way| - 1].mountpoint
      decreases parent.depth
    {
      assert parent.parent != parent && parent.depth >= 0 && parent.parent.depth < parent.depth;
      way := way + [parent];
      mp := parent.mountpoint;
      parent := parent.parent;
    }
  }

  datatype Move = Move(S: set<Mount>, mnt: Mount, parent: Mount)

  ghost predicate Movable(a: Move)
    reads a.S
  {
    && Tree(a.S) && Listed(a.S) && a.mnt in a.S && a.parent in a.S && !a.mnt.umount
    && a.parent != a.mnt.parent && a.mnt.parent != a.mnt && a.parent != a.mnt && a.parent.depth < a.mnt.depth
  }

  /** `mnt` has gone from the list of its old parent to the end of the list of `parent`. */
  twostate predicate MovedTo(a: Move)
    reads a.S`parent, a.S`mounts, a.S`depth, a.S`umount
  {
    && (forall m {:trigger m.parent} :: m in a.S ==> m.parent == if m == a.mnt then a.parent else old(m.parent))
    && (forall m {:trigger m.depth} :: m in a.S ==> m.depth == old(m.depth))
    && (forall m {:trigger m.umount} :: m in a.S ==> m.umount == old(m.umount))
    && (forall m {:trigger m.mounts} :: m in a.S ==>
          m.mounts == old(if m == a.mnt.parent then Remove(m.mounts, a.mnt) else if m == a.parent then m.mounts + [a.mnt] else m.mounts))
  }

  twostate lemma MovedTree(a: Move)
    requires old(Movable(a)) && MovedTo(a)
    ensures Tree(a.S)
  {
    hide Remove, NoDup, Listed;
    RemoveContents(old(a.mnt.parent.mounts), a.mnt);
    assert a.mnt !in old(a.parent.mounts);
    NoDupAppend(old(a.parent.mounts), [a.mnt]) by { SingletonNoDup(a.mnt); }
  }

  twostate lemma MovedListed(a: Move)
    requires old(Movable(a)) && MovedTo(a) && Tree(a.S)
    ensures Listed(a.S)
  {
    hide Remove, NoDup;
    RemoveContents(old(a.mnt.parent.mounts), a.mnt);
  }

  /** mnt_change_mountpoint */
  method ChangeMountpoint(ghost S: set<Mount>, parent: Mount, mp: Dentry, mnt: Mount)
    requires Movable(Move(S, mnt, parent)) && mnt.parent in S
    modifies S`mounts, mnt`parent, mnt`mountpoint
    ensures mnt.parent == parent && mnt.mountpoint == mp && MovedTo(Move(S, mnt, parent))
    ensures Tree(S) && Listed(S)
  {
    hide Remove, Tree, Listed;
    ghost var a := Move(S, mnt, parent);
    assert mnt in S && parent in S && parent != mnt.parent;
    mnt.parent.mounts := Remove(mnt.parent.mounts, mnt);
    mnt.parent := parent;
    mnt.mountpoint := mp;
    parent.mounts := parent.mounts + [mnt];
    assert MovedTo(a);
    MovedTree(a);
    MovedListed(a);
  }

  /** The body of the loop of restore_mounts. */
  method RestoreOne(ghost S: set<Mount>, mnt: Mount, ghost gone: seq<Mount>)
    requires Tree(S) && Listed(S) && Grounded(S, gone) && mnt in S && !mnt.umount
    modifies S`mounts, mnt`parent, mnt`mountpoint, mnt`marked
    ensures Tree(S) && Listed(S) && Grounded(S, gone)
    ensures mnt.parent in S && !mnt.parent.umount && !mnt.marked
    ensures var parent, mp := mnt.parent, mnt.mountpoint; old(Belongs(S, mnt, parent, mp))
  {
    hide Tree, Listed;
    mnt.marked := false;
    var parent, mp := FindSpot(S, mnt, gone);
    BelowSpot(S, mnt, parent, mp);
    if parent != mnt.parent {
      ChangeMountpoint(S, parent, mp, mnt);
    }
  }

  lemma BelowSpot(S: set<Mount>, mnt: Mount, parent: Mount, mp: Dentry)
    requires Tree(S) && Listed(S) && mnt in S && !mnt.umount && parent.depth <= mnt.parent.depth
    requires Belongs(S, mnt, parent, mp)
    ensures mnt.parent in S && (parent != mnt.parent ==> Movable(Move(S, mnt, parent)))
    ensures parent == mnt.parent ==> mp == mnt.mountpoint
  {
    hide NoDup, Listed;
  }

  /** Every mount in `done` has been put where it belongs; the others have not moved. */
  twostate predicate Restored(S: set<Mount>, done: seq<Mount>)
    reads S`parent, S`mountpoint, S`marked
  {
    forall m {:trigger m.parent} {:trigger m.mountpoint} {:trigger m.marked} :: m in S ==>
      if m in done then (var parent, mp := m.parent, m.mountpoint; parent in S && old(Belongs(S, m, parent, mp))) && !m.marked
      else m.parent == old(m.parent) && m.mountpoint == old(m.mountpoint) && m.marked == old(m.marked)
  }

  /** The way up from a mount leads over unmounted mounts only, and those never move. */
  twostate lemma BelongsAsBefore(b: InSet)
    requires b.m in b.S
    requires forall m {:trigger m.umount} :: m in b.S ==> m.umount == old(m.umount)
    requires forall m {:trigger m.parent} {:trigger m.mountpoint} :: m in b.S && (m.umount || m == b.m) ==>
      m.parent == old(m.parent) && m.mountpoint == old(m.mountpoint)
    ensures forall parent: Mount, mp: Dentry {:trigger Belongs(b.S, b.m, parent, mp)} ::
      parent in b.S && Belongs(b.S, b.m, parent, mp) ==> old(Belongs(b.S, b.m, parent, mp))
  {
    forall parent: Mount, mp: Dentry | parent in b.S && Belongs(b.S, b.m, parent, mp)
      ensures old(Belongs(b.S, b.m, parent, mp))
    {
      if b.m.parent.umount {
        var way: seq<Mount> :| Within(way, b.S) && GoneWay(b.S, way, b.m.parent)
          && parent == way[|way| - 1].parent && mp == way[|way| - 1].mountpoint;
        assert old(GoneWay(b.S, way, b.m.parent));
      }
    }
  }

  /** restore_mounts */
  method RestoreMounts(ghost S: set<Mount>, restore: seq<Mount>, ghost gone: seq<Mount>)
    requires Tree(S) && Listed(S) && Grounded(S, gone) && NoDup(restore) && Within(restore, S)
    requires forall m {:trigger m.umount} :: m in S && m in restore ==> !m.umount
    modifies S`mounts, S`parent, S`mountpoint, S`marked
    ensures Tree(S) && Listed(S) && Grounded(S, gone)
    ensures Restored(S, restore)
    ensures forall m {:trigger m.parent} :: m in S && m in restore ==> m.parent in S && !m.parent.umount
  {
    hide Tree, Listed, Belongs, Grounded;
    for i := 0 to |restore|
      invariant Tree(S) && Listed(S) && Grounded(S, gone)
      invariant Restored(S, restore[..i])
      invariant forall m {:trigger m.parent} :: m in S && m in restore[..i] ==> m.parent in S && !m.parent.umount
    {
      var mnt := restore[i];
      assert restore[..i + 1] == restore[..i] + [mnt];
      assert mnt !in restore[..i] && mnt in restore;
      BelongsAsBefore(InSet(S, mnt));
      label L:
      RestoreOne(S, mnt, gone);
      assert forall m {:trigger m.parent} {:trigger m.mountpoint} {:trigger m.marked} :: m in S && m != mnt ==>
        m.parent == old@L(m.parent) && m.mountpoint == old@L(m.mountpoint) && m.marked == old@L(m.marked);
    }
    assert restore[..|restore|] == restore;
  }
}
