/** invent_group_ids: every mount of a tree gets a group id before it is cloned as a peer. */
module GroupIds {
  import opened Lists
  import opened Propagation
  import opened PropagationOps
  import opened PropagationClone
  import opened Umount
  import opened TreeWalk

  /** CL_MAKE_SHARED alone, as propagate_one passes it for a peer. */
  const MAKE_SHARED := CloneFlags(false, true, false, false)

  /** A clone that is to be shared, of a mount that has no id: it stands on a ring with a mount that has another id. */
  method UnlabelledPeer(root: Dentry) returns (from: Mount, mnt: Mount)
    ensures from.group == 0 && from.next == mnt && mnt.group == 1 && !WellFormed({from, mnt})
  {
    from := new Mount(root);
    AddFresh({}, from);
    assert {} + {from} == {from};
    var c := CloneMnt({from}, from, root, MAKE_SHARED, 1);
    mnt := c;
    assert {from} + {mnt} == {from, mnt};
  }

  /** Ids that mnt_alloc_group_id hands out one after the other, until it fails. */
  ghost predicate Spare(S: set<Mount>, ids: seq<int>)
    reads S`group
  {
    NoDup(ids) && forall i {:trigger ids[i]} :: 0 <= i < |ids| ==> ids[i] != 0 && Unused(S, ids[i])
  }

  /** Between two operations only shared mounts have an id. */
  ghost predicate OnlySharedHaveIds(S: set<Mount>)
    reads S`group, S`shared
  {
    forall m {:trigger m.group} :: m in S && m.group != 0 ==> m.shared
  }

  /** The mounts that the loop goes over. */
  ghost function Order(S: set<Mount>, top: int, mnt: Mount, recurse: bool): seq<Mount>
    requires Whole(S, top) && mnt in S
    reads S`parent, S`mounts, S`depth
  {
    [mnt] + if recurse then Kids(S, top, mnt, 0) else []
  }

  ghost predicate Covered(S: set<Mount>, mnt: Mount, recurse: bool, m: Mount)
    requires Tree(S) && m in S
    reads S`parent, S`mounts, S`depth
  {
    m == mnt || (recurse && Inside(S, m, mnt))
  }

  lemma OrderCovers(S: set<Mount>, top: int, mnt: Mount, recurse: bool)
    requires Whole(S, top) && mnt in S
    ensures NoDup(Order(S, top, mnt, recurse))
    ensures forall m :: m in Order(S, top, mnt, recurse) <==> m in S && Covered(S, mnt, recurse, m)
  {
    hide NoDup, Inside;
    WalkMeetsAllOnce(S, top, mnt);
    SingletonNoDup(mnt);
    NoDupAppend([mnt], Kids(S, top, mnt, 0));
    assert [mnt] + [] == [mnt];
  }

  lemma OrderOnce(S: set<Mount>, top: int, mnt: Mount, recurse: bool)
    requires Whole(S, top) && mnt in S
    ensures NoDup(Order(S, top, mnt, recurse))
  {
    OrderCovers(S, top, mnt, recurse);
  }

  /** The loop stands at `p`, with `left` to come. */
  ghost predicate Standing(S: set<Mount>, top: int, mnt: Mount, recurse: bool, p: Mount?, left: seq<Mount>)
    reads S`parent, S`mounts, S`depth
  {
    if p == null then left == [] else p in S && if recurse then At(S, top, p, mnt, left) else left == []
  }

  method Next(ghost S: set<Mount>, ghost top: int, mnt: Mount, recurse: bool, p: Mount, ghost left: seq<Mount>)
    returns (q: Mount?, ghost left': seq<Mount>)
    requires Standing(S, top, mnt, recurse, p, left)
    ensures Standing(S, top, mnt, recurse, q, left') && left == (if q == null then [] else [q] + left')
  {
    hide At;
    q, left' := null, [];
    if recurse {
      q := NextMnt(S, top, p, mnt, left);
      if q != null { left' := left[1..]; AtIn(S, top, q, mnt, left'); }
    }
  }

  lemma AtIn(S: set<Mount>, top: int, m: Mount, r: Mount, left: seq<Mount>)
    requires At(S, top, m, r, left)
    ensures m in S
  {
  }

  lemma StartsAt(S: set<Mount>, top: int, mnt: Mount, recurse: bool)
    requires Whole(S, top) && mnt in S
    ensures var left := if recurse then Kids(S, top, mnt, 0) else [];
      Standing(S, top, mnt, recurse, mnt, left) && Order(S, top, mnt, recurse) == [mnt] + left
  {
    assert Kids(S, top, mnt, 0) + [] == Kids(S, top, mnt, 0);
  }

  /** Only the id of `p` changes. */
  twostate predicate OnlyId(S: set<Mount>, p: Mount, id: int)
    reads S`group
  {
    forall m {:trigger m.group} :: m in S ==> m.group == if m == p then id else old(m.group)
  }

  /** mnt_alloc_group_id */
  method GiveId(ghost S: set<Mount>, p: Mount, id: int)
    requires WellFormed(S) && p in S && p.group == 0 && id != 0 && Unused(S, id)
    modifies p`group
    ensures WellFormed(S) && OnlyId(S, p, id)
  {
    hide Infix, NoDup, Closes, SlavesMatch, Contiguous, Ranked;
    p.group := id;
    assert PeersAgree(S);
  }

  /** mnt_release_group_id */
  method DropId(ghost S: set<Mount>, p: Mount)
    requires WellFormed(S) && p in S && p.ring == [p] && !p.shared
    modifies p`group
    ensures WellFormed(S) && OnlyId(S, p, 0)
  {
    hide Infix, NoDup, Closes, SlavesMatch, Contiguous, Ranked;
    p.group := 0;
    assert PeersAgree(S);
  }

  // ---------------------------------------------------------------- the loops

  /** The ids that mounts have. */
  ghost function Ids(S: set<Mount>): (r: map<Mount, int>)
    reads S`group
    ensures r.Keys == S && forall m {:trigger r[m]} :: m in S ==> r[m] == m.group
  {
    map m | m in S :: m.group
  }

  /**
   Where invent_group_ids stands: `done` has been gone over, and of that `given` has got the first of `ids`; the ids of
   all other mounts are as they were.
   */
  ghost predicate Giving(S: set<Mount>, was: map<Mount, int>, ids: seq<int>, done: seq<Mount>, given: seq<Mount>)
    reads S`group
  {
    && was.Keys == S && NoDup(given) && |given| <= |ids| && Within(given, S)
    && (forall m :: m in S && m in given ==> m in done && was[m] == 0)
    && (forall m {:trigger was[m]} :: m in S && m !in given ==> m.group == was[m])
    && (forall i {:trigger given[i]} :: 0 <= i < |given| ==> given[i].group == ids[i])
    && (forall m :: m in S && m in done ==> m.group != 0)
    && (forall i {:trigger ids[i]} :: |given| <= i < |ids| ==> Unused(S, ids[i]))
  }

  lemma StillUnused(S: set<Mount>, ids: seq<int>, k: nat, i: nat)
    requires NoDup(ids) && k < i < |ids|
    ensures ids[i] != ids[k]
  {
  }

  /** One round of the loop: the next mount has an id, has got one, or there is none for it. */
  method Label1(ghost S: set<Mount>, p: Mount, ids: seq<int>, k: nat) returns (ok: bool, k': nat)
    requires WellFormed(S) && p in S && k <= |ids| && NoDup(ids)
    requires forall i {:trigger ids[i]} :: k <= i < |ids| ==> ids[i] != 0 && Unused(S, ids[i])
    modifies p`group
    ensures WellFormed(S) && ok == (old(p.group) != 0 || k < |ids|)
    ensures if ok && old(p.group) == 0 then k' == k + 1 && OnlyId(S, p, ids[k]) else k' == k && OnlyId(S, p, old(p.group))
    ensures forall i {:trigger ids[i]} :: k' <= i < |ids| ==> Unused(S, ids[i])
  {
    hide WellFormed;
    ok, k' := true, k;
    NoIdNotShared(S, p);
    if p.group == 0 && !p.shared {
      if k == |ids| { ok := false; return; }
      forall i | k + 1 <= i < |ids| ensures ids[i] != ids[k] { StillUnused(S, ids, k, i); }
      GiveId(S, p, ids[k]);
      k' := k + 1;
    }
  }

  lemma NoIdNotShared(S: set<Mount>, p: Mount)
    requires WellFormed(S) && p in S
    ensures p.group == 0 ==> !p.shared
  {
  }

  /** Mounts with an id that are not shared have no peers yet. */
  ghost predicate NewIdsAlone(S: set<Mount>)
    reads S`group, S`shared, S`ring
  {
    forall m {:trigger m.group} :: m in S && m.group != 0 && !m.shared ==> m.ring == [m]
  }

  /** The ids of mounts of `done` that are not shared are gone. */
  ghost predicate Dropped(S: set<Mount>, was: map<Mount, int>, done: seq<Mount>)
    reads S`group, S`shared
  {
    was.Keys == S && forall m {:trigger was[m]} :: m in S ==> m.group == if m in done && !m.shared then 0 else was[m]
  }

  /** Where the walk of cleanup_group_ids stands. */
  ghost predicate Cleaning(S: set<Mount>, top: int, mnt: Mount, was: map<Mount, int>, done: seq<Mount>, p: Mount, left: seq<Mount>)
    reads S
  {
    && WellFormed(S) && NewIdsAlone(S) && Dropped(S, was, done)
    && p in S && mnt in S && Standing(S, top, mnt, true, p, left)
    && Whole(S, top) && Order(S, top, mnt, true) == done + ([p] + left)
  }

  method CleanOne(ghost S: set<Mount>, ghost top: int, mnt: Mount, ghost was: map<Mount, int>, ghost done: seq<Mount>, p: Mount,
                  ghost left: seq<Mount>)
    returns (q: Mount, ghost left': seq<Mount>)
    requires Cleaning(S, top, mnt, was, done, p, left) && left != []
    modifies p`group
    ensures Cleaning(S, top, mnt, was, done + [p], q, left') && |left'| < |left|
  {
    hide WellFormed, Whole, Order, Standing, NewIdsAlone, Dropped, Kids;
    DropNext(S, p, was, done);
    var r: Mount?;
    r, left' := Next(S, top, mnt, true, p, left);
    NextIn(S, top, mnt, true, r, left');
    q := r;
    assert done + ([p] + left) == (done + [p]) + ([q] + left');
  }

  /** cleanup_group_ids: mounts before `end` that are not shared lose their id */
  method CleanupGroupIds(ghost S: set<Mount>, ghost top: int, mnt: Mount, end: Mount)
    requires WellFormed(S) && Whole(S, top) && Tree(S) && mnt in S && end in Order(S, top, mnt, true) && NewIdsAlone(S)
    modifies S`group
    ensures WellFormed(S)
    ensures var order := Order(S, top, mnt, true); Dropped(S, old(Ids(S)), order[..IndexOf(order, end)])
  {
    hide Cleaning, IndexOf, NoDup, Dropped, WellFormed, NewIdsAlone, Ids, Kids, Whole, Tree, Order;
    ghost var was := Ids(S);
    ghost var done: seq<Mount>, left := [], Kids(S, top, mnt, 0);
    StartCleaning(S, top, mnt);
    var p: Mount := mnt;
    while p != end
      invariant Cleaning(S, top, mnt, was, done, p, left) && p in S && end !in done
      decreases |left|
    {
      MoreToClean(S, top, mnt, was, done, p, left, end);
      var q: Mount;
      q, left := CleanOne(S, top, mnt, was, done, p, left);
      done := done + [p];
      p := q;
      CleanIn(S, top, mnt, was, done, p, left);
    }
    Cleaned(S, top, mnt, was, done, p, left);
  }

  lemma StartCleaning(S: set<Mount>, top: int, mnt: Mount)
    requires WellFormed(S) && Whole(S, top) && Tree(S) && mnt in S && NewIdsAlone(S)
    ensures Cleaning(S, top, mnt, Ids(S), [], mnt, Kids(S, top, mnt, 0))
  {
    hide WellFormed, Whole, Tree, NewIdsAlone, Standing, Order, Dropped;
    StartsAt(S, top, mnt, true);
    NoneDropped(S);
  }

  lemma CleanIn(S: set<Mount>, top: int, mnt: Mount, was: map<Mount, int>, done: seq<Mount>, p: Mount, left: seq<Mount>)
    requires Cleaning(S, top, mnt, was, done, p, left)
    ensures p in S
  {
  }

  lemma MoreToClean(S: set<Mount>, top: int, mnt: Mount, was: map<Mount, int>, done: seq<Mount>, p: Mount, left: seq<Mount>, end: Mount)
    requires Cleaning(S, top, mnt, was, done, p, left) && Whole(S, top) && mnt in S && end in Order(S, top, mnt, true) &&
      end !in done && p != end
    ensures left != []
  {
    hide WellFormed, Whole, Order, Standing, NewIdsAlone, Dropped;
    NotLast(Order(S, top, mnt, true), done, p, left, end);
  }

  lemma Cleaned(S: set<Mount>, top: int, mnt: Mount, was: map<Mount, int>, done: seq<Mount>, p: Mount, left: seq<Mount>)
    requires Cleaning(S, top, mnt, was, done, p, left) && Whole(S, top) && mnt in S
    ensures var order := Order(S, top, mnt, true);
      WellFormed(S) && p in order && IndexOf(order, p) <= |order| && Dropped(S, was, order[..IndexOf(order, p)])
  {
    hide WellFormed, Whole, Order, Standing, NewIdsAlone, Dropped, NoDup, IndexOf;
    OrderOnce(S, top, mnt, true);
    Split(Order(S, top, mnt, true), done, p, left);
  }

  lemma NoneDropped(S: set<Mount>)
    ensures Dropped(S, Ids(S), [])
  {
  }

  method DropNext(ghost S: set<Mount>, p: Mount, ghost was: map<Mount, int>, ghost done: seq<Mount>)
    requires WellFormed(S) && p in S && NewIdsAlone(S) && Dropped(S, was, done)
    modifies p`group
    ensures WellFormed(S) && NewIdsAlone(S) && Dropped(S, was, done + [p])
  {
    hide WellFormed;
    if p.group != 0 && !p.shared { DropId(S, p); }
  }

  lemma NextIn(S: set<Mount>, top: int, mnt: Mount, recurse: bool, q: Mount?, left: seq<Mount>)
    requires Standing(S, top, mnt, recurse, q, left)
    ensures q == null || q in S
  {
  }

  lemma NotLast(order: seq<Mount>, done: seq<Mount>, p: Mount, left: seq<Mount>, end: Mount)
    requires order == done + ([p] + left) && end in order && end !in done && p != end
    ensures left != [] && order == (done + [p]) + left
  {
  }

  lemma Split(order: seq<Mount>, done: seq<Mount>, p: Mount, left: seq<Mount>)
    requires order == done + ([p] + left) && NoDup(order)
    ensures p !in done && IndexOf(order, p) == |done| && order[..|done|] == done
  {
    NoDupIndex(order, |done|);
    DisjointHalves2(done, p, left);
  }

  lemma DisjointHalves2(done: seq<Mount>, p: Mount, left: seq<Mount>)
    requires NoDup(done + ([p] + left))
    ensures p !in done
  {
    if p in done { DisjointHalves(done, [p] + left, p); }
  }

  /** The same in terms of what has been gone over. */
  method LabelNext(ghost S: set<Mount>, p: Mount, ids: seq<int>, k: nat, ghost was: map<Mount, int>,
                   ghost done: seq<Mount>, ghost given: seq<Mount>)
    returns (ok: bool, k': nat, ghost given': seq<Mount>)
    requires WellFormed(S) && p in S && NoDup(ids) && (forall i :: 0 <= i < |ids| ==> ids[i] != 0)
    requires Giving(S, was, ids, done, given) && k == |given| && p !in done
    modifies p`group
    ensures WellFormed(S) && ok ==> Giving(S, was, ids, done + [p], given') && k' == |given'|
    ensures !ok ==> given' == given && Giving(S, was, ids, done, given) && p.group == 0 == old(p.group) && |given| == |ids|
    ensures WellFormed(S)
  {
    hide WellFormed;
    given' := given;
    ghost var id := p.group;
    assert p !in given;
    ok, k' := Label1(S, p, ids, k);
    if ok {
      if id == 0 {
        given' := given + [p];
        SingletonNoDup(p);
        NoDupAppend(given, [p]);
      }
    }
  }

  /** Where the walk of invent_group_ids stands, with `p` next, or at its end. */
  ghost predicate Inventing(S: set<Mount>, top: int, mnt: Mount, recurse: bool, was: map<Mount, int>, ids: seq<int>, done: seq<Mount>,
                            given: seq<Mount>, p: Mount?, left: seq<Mount>)
    reads S
  {
    && WellFormed(S) && Giving(S, was, ids, done, given) && mnt in S && (p == null || p in S)
    && Standing(S, top, mnt, recurse, p, left) && Whole(S, top)
    && Order(S, top, mnt, recurse) == done + (if p == null then [] else [p] + left)
  }

  method InventOne(ghost S: set<Mount>, ghost top: int, mnt: Mount, recurse: bool, ghost was: map<Mount, int>, ids: seq<int>, k: nat,
                   ghost done: seq<Mount>, ghost given: seq<Mount>, p: Mount, ghost left: seq<Mount>)
    returns (ok: bool, k': nat, q: Mount?, ghost given': seq<Mount>, ghost left': seq<Mount>)
    requires Inventing(S, top, mnt, recurse, was, ids, done, given, p, left) && k == |given|
    requires NoDup(ids) && forall i :: 0 <= i < |ids| ==> ids[i] != 0
    modifies p`group
    ensures ok ==> Inventing(S, top, mnt, recurse, was, ids, done + [p], given', q, left') && k' == |given'|
    ensures ok ==> (q == null || q in S) && (q != null ==> |left'| < |left|)
    ensures !ok ==> Inventing(S, top, mnt, recurse, was, ids, done, given, p, left) && p.group == 0 && |given| == |ids|
  {
    hide WellFormed, Whole, Order, Standing, Giving, NoDup, IndexOf, Kids;
    OrderOnce(S, top, mnt, recurse);
    Split(Order(S, top, mnt, recurse), done, p, left);
    q, left' := null, [];
    ok, k', given' := LabelNext(S, p, ids, k, was, done, given);
    if ok {
      q, left' := Next(S, top, mnt, recurse, p, left);
      NextIn(S, top, mnt, recurse, q, left');
      assert done + ([p] + left) == (done + [p]) + left;
    }
  }

  lemma StartInventing(S: set<Mount>, top: int, mnt: Mount, recurse: bool, ids: seq<int>)
    requires WellFormed(S) && Whole(S, top) && mnt in S && Spare(S, ids)
    ensures Inventing(S, top, mnt, recurse, Ids(S), ids, [], [], mnt, if recurse then Kids(S, top, mnt, 0) else [])
  {
    hide WellFormed, Whole, Order, Standing, Kids;
    StartsAt(S, top, mnt, recurse);
    EmptyNoDup<Mount>();
  }

  lemma HasIdIsJoinable(m: Mount)
    requires m.group != 0
    ensures Joinable(m, MAKE_SHARED)
  {
  }

  /** At the end of the walk. */
  lemma AllInvented(S: set<Mount>, top: int, mnt: Mount, recurse: bool, was: map<Mount, int>, ids: seq<int>,
                    done: seq<Mount>, given: seq<Mount>)
    requires Inventing(S, top, mnt, recurse, was, ids, done, given, null, []) && Tree(S)
    ensures WellFormed(S) && Giving(S, was, ids, done, given)
    ensures forall m :: m in S && m in given ==> Covered(S, mnt, recurse, m)
    ensures forall m :: m in S && Covered(S, mnt, recurse, m) ==> m.group != 0 && Joinable(m, MAKE_SHARED)
  {
    hide WellFormed, Whole, Tree, Order, Standing, Covered, NoDup, Joinable;
    OrderCovers(S, top, mnt, recurse);
    assert Order(S, top, mnt, recurse) == done;
    forall m | m in S && Covered(S, mnt, recurse, m)
      ensures m.group != 0 && Joinable(m, MAKE_SHARED)
    {
      assert m in done;
      HasIdIsJoinable(m);
    }
  }

  /** What has been given ids so far are mounts of the tree, and so is the one for which there is none. */
  lemma GivenCovered(S: set<Mount>, top: int, mnt: Mount, recurse: bool, was: map<Mount, int>, ids: seq<int>, done: seq<Mount>,
                     given: seq<Mount>, p: Mount, left: seq<Mount>)
    requires Inventing(S, top, mnt, recurse, was, ids, done, given, p, left) && Tree(S) && p.group == 0
    ensures NoDup(given + [p]) && Within(given + [p], S) && was.Keys == S
    ensures forall m :: m in S && m in given + [p] ==> Covered(S, mnt, recurse, m) && was[m] == 0
  {
    hide WellFormed, Whole, Tree, Order, Standing, Covered, NoDup, IndexOf;
    OrderCovers(S, top, mnt, recurse);
    Split(Order(S, top, mnt, recurse), done, p, left);
    assert p !in given;
    SingletonNoDup(p);
    NoDupAppend(given, [p]);
  }

  /** Before the ids are taken back: new ones are with mounts that were alone, and those are before `p`. */
  lemma CanCleanUp(S: set<Mount>, top: int, mnt: Mount, recurse: bool, was: map<Mount, int>, ids: seq<int>, done: seq<Mount>,
                   given: seq<Mount>, p: Mount, left: seq<Mount>)
    requires Inventing(S, top, mnt, recurse, was, ids, done, given, p, left) && Tree(S) && p.group == 0
    requires forall m {:trigger was[m]} :: m in S && was[m] != 0 ==> m.shared
    requires forall m {:trigger was[m]} :: m in S && was[m] == 0 ==> m.ring == [m] && !m.shared
    ensures WellFormed(S) && NewIdsAlone(S) && Whole(S, top) && mnt in S
    ensures var all := Order(S, top, mnt, true);
      p in all && IndexOf(all, p) <= |all| && forall m :: m in S && m in given ==> m in all[..IndexOf(all, p)]
  {
    hide WellFormed, Whole, Tree, Order, Standing, NoDup, IndexOf, Kids;
    OrderOnce(S, top, mnt, true);
    var all := Order(S, top, mnt, true);
    if recurse {
      Split(all, done, p, left);
    } else {
      OrderHead(S, top, mnt, recurse, done, p, left);
      Split(all, [], mnt, all[1..]);
    }
  }

  lemma OrderHead(S: set<Mount>, top: int, mnt: Mount, recurse: bool, done: seq<Mount>, p: Mount, left: seq<Mount>)
    requires Whole(S, top) && mnt in S && !recurse && Order(S, top, mnt, recurse) == done + ([p] + left)
    ensures done == [] && p == mnt && Order(S, top, mnt, true) == [] + ([mnt] + Order(S, top, mnt, true)[1..])
  {
    assert Order(S, top, mnt, recurse) == [mnt];
    assert |done| + 1 + |left| == 1;
    assert (done + ([p] + left))[0] == mnt;
  }

  lemma NothingLeft(S: set<Mount>, was: map<Mount, int>, now: map<Mount, int>, ids: seq<int>, done: seq<Mount>, given: seq<Mount>,
                    before: seq<Mount>)
    requires was.Keys == S && now.Keys == S && Dropped(S, now, before)
    requires forall m :: m in S && m in given ==> m in before && was[m] == 0
    requires forall m {:trigger was[m]} :: m in S && m !in given ==> now[m] == was[m]
    requires forall m {:trigger was[m]} :: m in S ==> (was[m] != 0 <==> m.shared)
    ensures forall m {:trigger was[m]} :: m in S ==> m.group == was[m]
  {
    forall m {:trigger was[m]} | m in S ensures m.group == was[m] {
      assert now[m] == now[m];
    }
  }

  lemma IdsShared(S: set<Mount>)
    requires WellFormed(S) && OnlySharedHaveIds(S)
    ensures forall m {:trigger m.group} :: m in S ==> (m.group != 0 <==> m.shared) && (m.group == 0 ==> m.ring == [m])
  {
  }

  /** The failure of invent_group_ids at `p`. */
  method TakeBack(ghost S: set<Mount>, ghost top: int, mnt: Mount, recurse: bool, ghost was: map<Mount, int>, ids: seq<int>,
                  ghost done: seq<Mount>, ghost given: seq<Mount>, p: Mount, ghost left: seq<Mount>)
    requires Inventing(S, top, mnt, recurse, was, ids, done, given, p, left) && Tree(S) && Whole(S, top) && mnt in S && p.group == 0
    requires was.Keys == S && forall m {:trigger was[m]} :: m in S ==> (was[m] != 0 <==> m.shared) && (was[m] == 0 ==> m.ring == [m])
    modifies S`group
    ensures WellFormed(S) && forall m {:trigger was[m]} :: m in S ==> m.group == was[m]
  {
    hide WellFormed, Whole, Tree, Order, Standing, NoDup, IndexOf, Kids, Inventing, NewIdsAlone, Covered, Dropped, Ids;
    CanCleanUp(S, top, mnt, recurse, was, ids, done, given, p, left);
    GivenFacts(S, top, mnt, recurse, was, ids, done, given, p, left);
    ghost var now := Ids(S);
    CleanupGroupIds(S, top, mnt, p);
    ghost var all := Order(S, top, mnt, true);
    NothingLeft(S, was, now, ids, done, given, all[..IndexOf(all, p)]);
  }

  lemma GivenFacts(S: set<Mount>, top: int, mnt: Mount, recurse: bool, was: map<Mount, int>, ids: seq<int>, done: seq<Mount>,
                   given: seq<Mount>, p: Mount, left: seq<Mount>)
    requires Inventing(S, top, mnt, recurse, was, ids, done, given, p, left)
    ensures was.Keys == S && (forall m :: m in S && m in given ==> was[m] == 0)
    ensures forall m {:trigger was[m]} :: m in S && m !in given ==> Ids(S)[m] == was[m]
  {
    hide WellFormed, Whole, Order, Standing, NoDup;
  }

  /** invent_group_ids: all mounts of the tree have an id afterwards, or all ids are as they were */
  method InventGroupIds(ghost S: set<Mount>, ghost top: int, mnt: Mount, recurse: bool, ids: seq<int>)
    returns (ok: bool, ghost given: seq<Mount>)
    requires WellFormed(S) && Whole(S, top) && Tree(S) && mnt in S && Spare(S, ids) && OnlySharedHaveIds(S)
    modifies S`group
    ensures WellFormed(S) && NoDup(given) && Within(given, S)
    ensures forall m :: m in S && m in given ==> Covered(S, mnt, recurse, m) && old(m.group) == 0
    ensures ok ==> |given| <= |ids| && forall i {:trigger given[i]} :: 0 <= i < |given| ==> given[i].group == ids[i]
    ensures ok ==> forall m {:trigger m.group} :: m in S && m !in given ==> m.group == old(m.group)
    ensures ok ==> forall m :: m in S && Covered(S, mnt, recurse, m) ==> m.group != 0 && Joinable(m, MAKE_SHARED)
    ensures !ok ==> |given| == |ids| + 1 && forall m {:trigger m.group} :: m in S ==> m.group == old(m.group)
  {
    hide WellFormed, Whole, Tree, Inventing, NoDup, Kids, Covered, Joinable, OnlySharedHaveIds, Ids;
    ghost var was := Ids(S);
    IdsShared(S);
    StartInventing(S, top, mnt, recurse, ids);
    ghost var done: seq<Mount>, left := [], if recurse then Kids(S, top, mnt, 0) else [];
    given := [];
    var p: Mount?, k := mnt, 0;
    while p != null
      invariant Inventing(S, top, mnt, recurse, was, ids, done, given, p, left) && k == |given| && (p == null || p in S)
      decreases if p == null then 0 else |left| + 1
    {
      var q: Mount?;
      ghost var given', left';
      ok, k, q, given', left' := InventOne(S, top, mnt, recurse, was, ids, k, done, given, p, left);
      if !ok {
        GivenCovered(S, top, mnt, recurse, was, ids, done, given, p, left);
        TakeBack(S, top, mnt, recurse, was, ids, done, given, p, left);
        given := given + [p];
        return;
      }
      done, given, left, p := done + [p], given', left', q;
    }
    NoneLeft(S, top, mnt, recurse, was, ids, done, given, left);
    AllInvented(S, top, mnt, recurse, was, ids, done, given);
    ok := true;
  }

  lemma NoneLeft(S: set<Mount>, top: int, mnt: Mount, recurse: bool, was: map<Mount, int>, ids: seq<int>, done: seq<Mount>,
                 given: seq<Mount>, left: seq<Mount>)
    requires Inventing(S, top, mnt, recurse, was, ids, done, given, null, left)
    ensures left == []
  {
  }
}
