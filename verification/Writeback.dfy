/** The queues of dirty inodes: newest first, so that a scan from the tail finds exactly the expired ones. */
module Writeback {
  import opened Lists

  class Inode {
    var dirtiedWhen: int
    const sb: int
    const blkdev: bool    // its superblock is the one of block devices

    constructor (sb: int, blkdev: bool)
      ensures this.sb == sb && this.blkdev == blkdev && dirtiedWhen == 0
    {
      this.sb, this.blkdev, dirtiedWhen := sb, blkdev, 0;
    }
  }

  /** Newest first. */
  ghost predicate Sorted(l: seq<Inode>)
    reads l
  {
    forall i, j {:trigger l[i].dirtiedWhen, l[j].dirtiedWhen} :: 0 <= i < j < |l| ==> l[i].dirtiedWhen >= l[j].dirtiedWhen
  }

  ghost predicate NotAfter(l: seq<Inode>, now: int)
    reads l
  {
    forall i {:trigger l[i].dirtiedWhen} :: 0 <= i < |l| ==> l[i].dirtiedWhen <= now
  }

  // ---------------------------------------------------------------- grouping by superblock

  ghost function OfSb(l: seq<Inode>, sb: int): seq<Inode> {
    if l == [] then [] else (if l[0].sb == sb then [l[0]] else []) + OfSb(l[1..], sb)
  }

  ghost function Others(l: seq<Inode>, sb: int): seq<Inode> {
    if l == [] then [] else (if l[0].sb == sb then [] else [l[0]]) + Others(l[1..], sb)
  }

  lemma {:induction false} OfSbAppend(a: seq<Inode>, b: seq<Inode>, sb: int)
    ensures OfSb(a + b, sb) == OfSb(a, sb) + OfSb(b, sb)
  {
    if a == [] {
      assert a + b == b;
    } else {
      var head := if a[0].sb == sb then [a[0]] else [];
      calc {
        OfSb(a + b, sb);
        { assert (a + b)[1..] == a[1..] + b; }
        head + OfSb(a[1..] + b, sb);
        { OfSbAppend(a[1..], b, sb); }
        head + (OfSb(a[1..], sb) + OfSb(b, sb));
        { Reassociate(head, OfSb(a[1..], sb), OfSb(b, sb)); }
        OfSb(a, sb) + OfSb(b, sb);
      }
    }
  }

  lemma {:induction false} OfOthers(l: seq<Inode>, sb: int, s: int)
    ensures OfSb(Others(l, sb), s) == if s == sb then [] else OfSb(l, s)
    ensures |Others(l, sb)| <= |l|
  {
    if l != [] {
      OfOthers(l[1..], sb, s);
      OfSbAppend(if l[0].sb == sb then [] else [l[0]], Others(l[1..], sb), s);
      if l[0].sb == sb {
        assert [] + Others(l[1..], sb) == Others(l[1..], sb);
      }
      assert OfSb([l[0]], s) == (if l[0].sb == s then [l[0]] else []) + OfSb([], s);
      assert OfSb([], s) == [];
    }
  }

  lemma {:induction false} OfOf(l: seq<Inode>, sb: int, s: int)
    ensures OfSb(OfSb(l, sb), s) == if s == sb then OfSb(l, sb) else []
    ensures forall i :: 0 <= i < |OfSb(l, sb)| ==> OfSb(l, sb)[i].sb == sb
  {
    if l != [] {
      OfOf(l[1..], sb, s);
      if l[0].sb == sb {
        OfSbAppend([l[0]], OfSb(l[1..], sb), s);
        assert OfSb([l[0]], s) == (if l[0].sb == s then [l[0]] else []) + OfSb([], s);
      } else {
        assert [] + OfSb(l[1..], sb) == OfSb(l[1..], sb);
      }
    }
  }

  lemma {:induction false} NoneOfSb(l: seq<Inode>, sb: int)
    ensures OfSb(l, sb) == [] <==> forall i :: 0 <= i < |l| ==> l[i].sb != sb
  {
    if l != [] {
      NoneOfSb(l[1..], sb);
      if OfSb(l, sb) == [] {
        forall i | 0 <= i < |l| ensures l[i].sb != sb { if i > 0 { assert l[1..][i - 1] == l[i]; } }
      }
    }
  }

  /** The same inodes, each superblock's in the same order. */
  ghost predicate Regrouped(r: seq<Inode>, l: seq<Inode>) {
    forall s {:trigger OfSb(r, s)} :: OfSb(r, s) == OfSb(l, s)
  }

  /** The inodes of a superblock stand together. */
  ghost predicate Together(r: seq<Inode>) {
    forall i, j, k {:trigger r[i].sb, r[j].sb, r[k].sb} :: 0 <= i < j < k < |r| && r[i].sb == r[k].sb ==> r[j].sb == r[i].sb
  }

  lemma TogetherInFront(g: seq<Inode>, r: seq<Inode>, sb: int)
    requires Together(r) && (forall i :: 0 <= i < |g| ==> g[i].sb == sb) && forall i :: 0 <= i < |r| ==> r[i].sb != sb
    ensures Together(g + r)
  {
    var a := g + r;
    forall i, j, k {:trigger a[i].sb, a[j].sb, a[k].sb} | 0 <= i < j < k < |a| && a[i].sb == a[k].sb ensures a[j].sb == a[i].sb {
      if i >= |g| { assert a[i] == r[i - |g|] && a[j] == r[j - |g|] && a[k] == r[k - |g|]; }
    }
  }

  /** One round of the regrouping: the inodes of `sb` go to the head of the queue, from the tail on */
  method Extract(tmp: seq<Inode>, dispatch: seq<Inode>, sb: int) returns (left: seq<Inode>, queue: seq<Inode>)
    ensures left == Others(tmp, sb) && queue == OfSb(tmp, sb) + dispatch
  {
    left, queue := tmp, dispatch;
    var i := |tmp|;
    assert tmp[|tmp|..] == [];
    while i > 0
      invariant 0 <= i <= |tmp| && left == tmp[..i] + Others(tmp[i..], sb) && queue == OfSb(tmp[i..], sb) + dispatch
    {
      i := i - 1;
      assert tmp[i..] == [tmp[i]] + tmp[i + 1..] && tmp[i..][1..] == tmp[i + 1..];
      assert tmp[..i + 1] == tmp[..i] + [tmp[i]];
      if tmp[i].sb == sb {
        queue := [tmp[i]] + queue;
        left := left[..i] + left[i + 1..];
      }
    }
    assert tmp[0..] == tmp && tmp[..0] == [];
  }

  /** The second half of move_expired_inodes: inodes from one superblock together */
  method Regroup(tmp0: seq<Inode>, dispatch: seq<Inode>) returns (queue: seq<Inode>)
    ensures |queue| >= |dispatch| && queue[|queue| - |dispatch|..] == dispatch
    ensures var r := queue[..|queue| - |dispatch|]; Regrouped(r, tmp0) && Together(r)
  {
    hide OfSb, Others;
    var tmp := tmp0;
    queue := dispatch;
    ghost var r: seq<Inode> := [];
    StartGroups(tmp0);
    while tmp != []
      invariant queue == r + dispatch && Together(r)
      invariant forall s {:trigger OfSb(r, s)} {:trigger OfSb(tmp, s)} ::
        OfSb(tmp, s) + OfSb(r, s) == OfSb(tmp0, s) && (OfSb(tmp, s) == [] || OfSb(r, s) == [])
      decreases |tmp|
    {
      var sb := tmp[|tmp| - 1].sb;
      ghost var g := OfSb(tmp, sb);
      NextGroup(tmp, r, tmp0, sb);
      tmp, queue := Extract(tmp, queue, sb);
      assert g + (r + dispatch) == (g + r) + dispatch;
      r := g + r;
    }
    AllGrouped(r, tmp0);
    assert queue[..|queue| - |dispatch|] == r;
  }

  lemma StartGroups(l: seq<Inode>)
    ensures forall s {:trigger OfSb([], s)} {:trigger OfSb(l, s)} :: OfSb(l, s) + OfSb([], s) == OfSb(l, s) && OfSb([], s) == []
  {
  }

  lemma AllGrouped(r: seq<Inode>, l: seq<Inode>)
    requires forall s {:trigger OfSb(r, s)} {:trigger OfSb([], s)} :: OfSb([], s) + OfSb(r, s) == OfSb(l, s)
    ensures Regrouped(r, l)
  {
    forall s {:trigger OfSb(r, s)} ensures OfSb(r, s) == OfSb(l, s) {
      assert OfSb([], s) == [];
    }
  }

  lemma NextGroup(tmp: seq<Inode>, r: seq<Inode>, l: seq<Inode>, sb: int)
    requires tmp != [] && sb == tmp[|tmp| - 1].sb && Together(r)
    requires forall s {:trigger OfSb(r, s)} {:trigger OfSb(tmp, s)} ::
      OfSb(tmp, s) + OfSb(r, s) == OfSb(l, s) && (OfSb(tmp, s) == [] || OfSb(r, s) == [])
    ensures var tmp', r' := Others(tmp, sb), OfSb(tmp, sb) + r;
      && Together(r') && |tmp'| < |tmp|
      && forall s {:trigger OfSb(r', s)} {:trigger OfSb(tmp', s)} ::
         OfSb(tmp', s) + OfSb(r', s) == OfSb(l, s) && (OfSb(tmp', s) == [] || OfSb(r', s) == [])
  {
    hide OfSb, Others;
    var g := OfSb(tmp, sb);
    NoneOfSb(tmp, sb);
    NoneOfSb(r, sb);
    OfOf(tmp, sb, sb);
    TogetherInFront(g, r, sb);
    Fewer(tmp, sb);
    forall s {:trigger OfSb(g + r, s)} {:trigger OfSb(Others(tmp, sb), s)}
      ensures OfSb(Others(tmp, sb), s) + OfSb(g + r, s) == OfSb(l, s) && (OfSb(Others(tmp, sb), s) == [] || OfSb(g + r, s) == [])
    {
      assert OfSb(tmp, s) + OfSb(r, s) == OfSb(l, s);
      OfOthers(tmp, sb, s);
      OfOf(tmp, sb, s);
      OfSbAppend(g, r, s);
    }
  }

  lemma {:induction false} Fewer(l: seq<Inode>, sb: int)
    requires l != [] && l[|l| - 1].sb == sb
    ensures |Others(l, sb)| < |l|
  {
    if l[0].sb == sb {
      OfOthers(l[1..], sb, sb);
    } else {
      assert l[1..][|l| - 2] == l[|l| - 1];
      Fewer(l[1..], sb);
    }
  }

  // ---------------------------------------------------------------- move_expired_inodes

  datatype Option = None | Some(v: int)

  /** Two inodes of different superblocks, other than the one of block devices. */
  ghost predicate Mixed(l: seq<Inode>) {
    exists i, j {:trigger l[i].sb, l[j].sb} :: 0 <= i < |l| && 0 <= j < |l| && !l[i].blkdev && !l[j].blkdev && l[i].sb != l[j].sb
  }

  ghost predicate Expired(inode: Inode, cutoff: Option)
    reads inode`dirtiedWhen
  {
    cutoff.None? || inode.dirtiedWhen <= cutoff.v
  }

  lemma MixedMore(x: Inode, l: seq<Inode>, sb: Option)
    requires if sb.None? then forall i :: 0 <= i < |l| ==> l[i].blkdev
      else (exists i :: 0 <= i < |l| && !l[i].blkdev && l[i].sb == sb.v)
    requires !Mixed(l) ==> sb.None? || forall i :: 0 <= i < |l| && !l[i].blkdev ==> l[i].sb == sb.v
    ensures Mixed([x] + l) <==> Mixed(l) || (!x.blkdev && sb.Some? && x.sb != sb.v)
  {
    var m := [x] + l;
    if Mixed(l) {
      var i, j :| 0 <= i < |l| && 0 <= j < |l| && !l[i].blkdev && !l[j].blkdev && l[i].sb != l[j].sb;
      assert m[i + 1].sb != m[j + 1].sb;
    } else if !x.blkdev && sb.Some? && x.sb != sb.v {
      var i :| 0 <= i < |l| && !l[i].blkdev && l[i].sb == sb.v;
      assert m[0].sb != m[i + 1].sb;
    }
  }

  /** The first half of move_expired_inodes: from the tail on, as long as inodes have expired */
  method TakeExpired(delaying: seq<Inode>, cutoff: Option) returns (k: nat, sort: bool)
    requires Sorted(delaying)
    ensures k <= |delaying| && sort == Mixed(delaying[k..])
    ensures forall i {:trigger delaying[i]} :: 0 <= i < |delaying| ==> (i >= k <==> Expired(delaying[i], cutoff))
  {
    k, sort := |delaying|, false;
    var sb := None;
    assert delaying[|delaying|..] == [];
    while k > 0
      invariant k <= |delaying| && sort == Mixed(delaying[k..])
      invariant forall i {:trigger delaying[i]} :: k <= i < |delaying| ==> Expired(delaying[i], cutoff)
      invariant if sb.None? then forall i :: 0 <= i < |delaying[k..]| ==> delaying[k..][i].blkdev
        else (exists i :: 0 <= i < |delaying[k..]| && !delaying[k..][i].blkdev && delaying[k..][i].sb == sb.v)
      invariant !Mixed(delaying[k..]) ==> sb.None? || forall i :: 0 <= i < |delaying[k..]| && !delaying[k..][i].blkdev ==>
        delaying[k..][i].sb == sb.v
    {
      var inode := delaying[k - 1];
      if cutoff.Some? && inode.dirtiedWhen > cutoff.v { break; }
      MixedMore(inode, delaying[k..], sb);
      ghost var before := delaying[k..];
      k := k - 1;
      assert delaying[k..] == [inode] + before;
      if !inode.blkdev {
        if sb.Some? && sb.v != inode.sb { sort := true; }
        sb := Some(inode.sb);
        assert delaying[k..][0] == inode;
      }
      Carry(inode, before, sb);
    }
  }

  lemma Carry(x: Inode, l: seq<Inode>, sb: Option)
    ensures !Mixed([x] + l) && sb.Some? && !x.blkdev && sb.v == x.sb ==>
      forall i :: 0 <= i < |[x] + l| && !([x] + l)[i].blkdev ==> ([x] + l)[i].sb == sb.v
  {
    var m := [x] + l;
    if !Mixed(m) && !x.blkdev {
      forall i | 0 <= i < |m| && !m[i].blkdev ensures m[i].sb == x.sb {
        assert m[0].sb == x.sb && (m[i].sb != m[0].sb ==> Mixed(m));
      }
    }
  }

  /** move_expired_inodes: exactly the expired ones leave, in order or grouped by superblock */
  method MoveExpired(delaying: seq<Inode>, dispatch: seq<Inode>, cutoff: Option) returns (left: seq<Inode>, queue: seq<Inode>, moved: nat)
    requires Sorted(delaying)
    ensures left <= delaying && moved == |delaying| - |left| && |queue| == moved + |dispatch| && queue[moved..] == dispatch
    ensures forall i {:trigger delaying[i]} :: 0 <= i < |delaying| ==> (i < |left| <==> !Expired(delaying[i], cutoff))
    ensures Regrouped(queue[..moved], delaying[|left|..])
    ensures if Mixed(delaying[|left|..]) then Together(queue[..moved]) else queue[..moved] == delaying[|left|..]
  {
    hide OfSb, Mixed;
    var k, sort := TakeExpired(delaying, cutoff);
    left := delaying[..k];
    var tmp := delaying[k..];
    moved := |tmp|;
    if !sort {
      queue := tmp + dispatch;
      assert queue[..moved] == tmp && queue[moved..] == dispatch;
      SameGroups(tmp);
    } else {
      queue := Regroup(tmp, dispatch);
      SameLength(queue[..|queue| - |dispatch|], tmp);
    }
  }

  lemma SameGroups(l: seq<Inode>)
    ensures Regrouped(l, l)
  {
  }

  /** Regrouping changes no number. */
  lemma {:induction false} SameLength(r: seq<Inode>, l: seq<Inode>)
    requires Regrouped(r, l)
    ensures |r| == |l| && multiset(r) == multiset(l)
    decreases |l|
  {
    if l == [] {
      if r != [] { NoneOfSb(r, r[0].sb); assert false; }
    } else {
      var x := l[0];
      assert OfSb(r, x.sb) == OfSb(l, x.sb);
      var i := FirstOf(r, x.sb);
      var r', l' := r[..i] + r[i + 1..], l[1..];
      forall s {:trigger OfSb(r', s)} ensures OfSb(r', s) == OfSb(l', s) {
        assert OfSb(r, s) == OfSb(l, s);
        Without(r, i, s);
      }
      SameLength(r', l');
      assert r == r[..i] + [r[i]] + r[i + 1..];
      assert l == [x] + l';
    }
  }

  lemma FirstOf(r: seq<Inode>, sb: int) returns (i: nat)
    requires OfSb(r, sb) != []
    ensures i < |r| && r[i] == OfSb(r, sb)[0] && r[i].sb == sb && forall j :: 0 <= j < i ==> r[j].sb != sb
    decreases |r|
  {
    if r[0].sb == sb {
      i := 0;
    } else {
      var k := FirstOf(r[1..], sb);
      i := k + 1;
      assert r[1..][k] == r[i];
      forall j | 0 <= j < i ensures r[j].sb != sb { if j > 0 { assert r[1..][j - 1] == r[j]; } }
    }
  }

  lemma Without(r: seq<Inode>, i: nat, s: int)
    requires i < |r| && forall j :: 0 <= j < i ==> r[j].sb != r[i].sb
    ensures s == r[i].sb ==> OfSb(r, s) != []
    ensures OfSb(r[..i] + r[i + 1..], s) == if s == r[i].sb then OfSb(r, s)[1..] else OfSb(r, s)
  {
    var a, x, b := r[..i], r[i], r[i + 1..];
    assert r == a + ([x] + b);
    OfSbAppend(a, b, s);
    OfSbAppend(a, [x] + b, s);
    assert ([x] + b)[1..] == b;
    if s == x.sb {
      NoneOfSb(a, s);
    }
  }

  // ---------------------------------------------------------------- the queues of a bdi_writeback

  lemma SortedRemove(l: seq<Inode>, x: Inode)
    requires Sorted(l)
    ensures Sorted(Remove(l, x))
  {
    if x in l {
      var k := IndexOf(l, x);
      var r := Remove(l, x);
      forall i, j {:trigger r[i].dirtiedWhen, r[j].dirtiedWhen} | 0 <= i < j < |r| ensures r[i].dirtiedWhen >= r[j].dirtiedWhen {
        var a, b := if i < k then i else i + 1, if j < k then j else j + 1;
        assert r[i] == l[a] && r[j] == l[b] && l[a].dirtiedWhen >= l[b].dirtiedWhen;
      }
    }
  }

  /** Where an inode with that time goes so that the queue stays in order: before the first that is not newer. */
  method PlaceFor(l: seq<Inode>, when: int) returns (k: nat)
    requires Sorted(l)
    ensures k <= |l| && (forall i {:trigger l[i].dirtiedWhen} :: 0 <= i < k ==> l[i].dirtiedWhen > when)
    ensures forall i {:trigger l[i].dirtiedWhen} :: k <= i < |l| ==> l[i].dirtiedWhen <= when
  {
    k := 0;
    while k < |l| && !(when >= l[k].dirtiedWhen)
      invariant k <= |l| && forall i {:trigger l[i].dirtiedWhen} :: 0 <= i < k ==> l[i].dirtiedWhen > when
    {
      k := k + 1;
    }
  }

  lemma SortedInsert(l: seq<Inode>, k: nat, x: Inode)
    requires Sorted(l) && k <= |l|
    requires forall i {:trigger l[i].dirtiedWhen} :: 0 <= i < k ==> l[i].dirtiedWhen >= x.dirtiedWhen
    requires forall i {:trigger l[i].dirtiedWhen} :: k <= i < |l| ==> l[i].dirtiedWhen <= x.dirtiedWhen
    ensures Sorted(l[..k] + [x] + l[k..])
  {
    var m := l[..k] + [x] + l[k..];
    forall i, j {:trigger m[i].dirtiedWhen, m[j].dirtiedWhen} | 0 <= i < j < |m| ensures m[i].dirtiedWhen >= m[j].dirtiedWhen {
      assert i < k ==> m[i] == l[i];
      assert i > k ==> m[i] == l[i - 1];
      assert j < k ==> m[j] == l[j];
      assert j > k ==> m[j] == l[j - 1];
    }
  }

  class Wb {
    var bDirty: seq<Inode>
    var bIo: seq<Inode>
    var bMoreIo: seq<Inode>
    var bDirtyTime: seq<Inode>

    constructor ()
      ensures bDirty == [] && bIo == [] && bMoreIo == [] && bDirtyTime == []
    {
      bDirty, bIo, bMoreIo, bDirtyTime := [], [], [], [];
    }

    /** Every inode is on one list only, and there once. */
    ghost predicate Linked()
      reads this
    {
      && NoDup(bDirty) && NoDup(bIo) && NoDup(bMoreIo) && NoDup(bDirtyTime)
      && (forall x :: x in bDirty ==> x !in bIo && x !in bMoreIo && x !in bDirtyTime)
      && (forall x :: x in bIo ==> x !in bMoreIo && x !in bDirtyTime)
      && (forall x :: x in bMoreIo ==> x !in bDirtyTime)
    }

    /** Both waiting queues are in order, and no time is in the future. */
    ghost predicate Valid(now: int)
      reads this, bDirty, bIo, bMoreIo, bDirtyTime
    {
      && Linked() && Sorted(bDirty) && Sorted(bDirtyTime)
      && NotAfter(bDirty, now) && NotAfter(bIo, now) && NotAfter(bMoreIo, now) && NotAfter(bDirtyTime, now)
    }

    /** The inode has left whatever list it was on. */
    twostate predicate Left(x: Inode)
      reads this
    {
      && bDirty == Remove(old(bDirty), x) && bIo == Remove(old(bIo), x)
      && bMoreIo == Remove(old(bMoreIo), x) && bDirtyTime == Remove(old(bDirtyTime), x)
    }

    /**
     Everything is in order but for the time of `x`, which may be out of order where `x` stands, unless it stands first.
     */
    ghost predicate Aside(x: Inode, now: int)
      reads this, bDirty, bIo, bMoreIo, bDirtyTime, x
    {
      && Linked() && Sorted(Remove(bDirty, x)) && Sorted(Remove(bDirtyTime, x))
      && NotAfter(Remove(bDirty, x), now) && NotAfter(Remove(bIo, x), now)
      && NotAfter(Remove(bMoreIo, x), now) && NotAfter(Remove(bDirtyTime, x), now)
      && (bDirty != [] && bDirty[0] == x ==> Newest(x, Remove(bDirty, x)))
    }

    lemma ValidAside(x: Inode, now: int)
      requires Valid(now)
      ensures Aside(x, now)
    {
      hide Remove, NoDup, Sorted, NotAfter, Newest;
      SortedRemove(bDirty, x);
      SortedRemove(bDirtyTime, x);
      LaterRemove(bDirty, x, now);
      LaterRemove(bIo, x, now);
      LaterRemove(bMoreIo, x, now);
      LaterRemove(bDirtyTime, x, now);
      if bDirty != [] && bDirty[0] == x { FirstNewest(bDirty, x); }
    }

    /** list_del, as part of every move */
    method Unlink(x: Inode, now: int)
      requires Aside(x, now)
      modifies this
      ensures Valid(now) && Left(x) && x !in bDirty && x !in bIo && x !in bMoreIo && x !in bDirtyTime
    {
      hide Remove, NoDup, Sorted, NotAfter, Newest;
      RemoveContents(bDirty, x);
      RemoveContents(bIo, x);
      RemoveContents(bMoreIo, x);
      RemoveContents(bDirtyTime, x);
      bDirty, bIo, bMoreIo, bDirtyTime := Remove(bDirty, x), Remove(bIo, x), Remove(bMoreIo, x), Remove(bDirtyTime, x);
    }

    /** A new time for an inode, wherever it stands. */
    method Stamp(x: Inode, now: int)
      requires Valid(now)
      modifies x
      ensures Aside(x, now) && x.dirtiedWhen == now
    {
      hide Remove, NoDup, Sorted, NotAfter, Newest;
      ValidAside(x, now);
      RemoveContents(bDirty, x);
      RemoveContents(bIo, x);
      RemoveContents(bMoreIo, x);
      RemoveContents(bDirtyTime, x);
      label L:
      x.dirtiedWhen := now;
      StampKeeps@L(Stamped(Remove(bDirty, x), x, now));
      StampKeeps@L(Stamped(Remove(bIo, x), x, now));
      StampKeeps@L(Stamped(Remove(bMoreIo, x), x, now));
      StampKeeps@L(Stamped(Remove(bDirtyTime, x), x, now));
    }

    /** redirty_tail: the time is renewed if the queue would get out of order otherwise */
    method RedirtyTail(x: Inode, now: int)
      requires Aside(x, now) && x.dirtiedWhen <= now
      modifies this, x
      ensures Valid(now) && bDirty == [x] + Remove(old(bDirty), x)
      ensures bIo == Remove(old(bIo), x) && bMoreIo == Remove(old(bMoreIo), x) && bDirtyTime == Remove(old(bDirtyTime), x)
      ensures x.dirtiedWhen == old(if bDirty != [] && x.dirtiedWhen < bDirty[0].dirtiedWhen then now else x.dirtiedWhen)
    {
      hide Remove, NoDup, Sorted, NotAfter;
      var renew := bDirty != [] && x.dirtiedWhen < bDirty[0].dirtiedWhen;
      NewestAside(bDirty, x);
      ghost var rest := Remove(bDirty, x);
      assert !renew ==> Newest(x, rest);
      Unlink(x, now);
      assert bDirty == rest && (!renew ==> Newest(x, rest));
      if renew { Renew(x, now); }
      PushKeeps(bDirty, x, now);
      bDirty := [x] + bDirty;
    }

    method Renew(x: Inode, now: int)
      requires Valid(now) && x !in bDirty && x !in bIo && x !in bMoreIo && x !in bDirtyTime
      modifies x
      ensures Valid(now) && x.dirtiedWhen == now
    {
      x.dirtiedWhen := now;
    }

    /** requeue_io */
    method RequeueIo(x: Inode, now: int)
      requires Aside(x, now) && x.dirtiedWhen <= now
      modifies this
      ensures Valid(now) && bMoreIo == [x] + Remove(old(bMoreIo), x)
      ensures bDirty == Remove(old(bDirty), x) && bIo == Remove(old(bIo), x) && bDirtyTime == Remove(old(bDirtyTime), x)
    {
      hide Remove, NoDup, Sorted, Newest;
      Unlink(x, now);
      OneMore(bMoreIo, x, now);
      bMoreIo := [x] + bMoreIo;
    }

    /** The enqueue part of __mark_inode_dirty, for an inode that was not dirty: b_dirty, or b_dirty_time for timestamps only */
    method Enqueue(x: Inode, now: int, timeOnly: bool)
      requires Valid(now)
      modifies this, x
      ensures Valid(now) && x.dirtiedWhen == now
      ensures bDirty == (if timeOnly then [] else [x]) + Remove(old(bDirty), x)
      ensures bDirtyTime == (if timeOnly then [x] else []) + Remove(old(bDirtyTime), x)
      ensures bIo == Remove(old(bIo), x) && bMoreIo == Remove(old(bMoreIo), x)
    {
      hide Remove, NoDup, Sorted, NotAfter, Newest;
      Stamp(x, now);
      Unlink(x, now);
      PushKeeps(bDirty, x, now);
      PushKeeps(bDirtyTime, x, now);
      if timeOnly { bDirtyTime := [x] + bDirtyTime; } else { bDirty := [x] + bDirty; }
    }

    /** inode_io_list_del_locked */
    method Delete(x: Inode, now: int)
      requires Aside(x, now)
      modifies this
      ensures Valid(now) && Left(x)
    {
      Unlink(x, now);
    }

    /** requeue_inode, on the lists of the writeback that the inode belongs to by now, wherever it stands there */
    method RequeueInode(x: Inode, now: int, freeing: bool, dirty: bool, tagged: bool, skipped: bool, pagesLeft: bool, sliceUsed: bool,
                        timeDirty: bool)
      requires Valid(now) && x.dirtiedWhen <= now
      modifies this, x
      ensures Valid(now)
      ensures freeing ==> bDirty == old(bDirty) && bIo == old(bIo) && bMoreIo == old(bMoreIo) && bDirtyTime == old(bDirtyTime)
      ensures !freeing ==> bIo == Remove(old(bIo), x)
      ensures !freeing ==>
        bDirty == (if skipped || (pagesLeft && !sliceUsed) || (!pagesLeft && dirty) then [x] else []) + Remove(old(bDirty), x)
      ensures !freeing ==> bMoreIo == (if !skipped && pagesLeft && sliceUsed then [x] else []) + Remove(old(bMoreIo), x)
      ensures !freeing ==>
        bDirtyTime == (if !skipped && !pagesLeft && !dirty && timeDirty then [x] else []) + Remove(old(bDirtyTime), x)
      ensures !freeing && dirty && tagged ==> x.dirtiedWhen == now
      ensures !freeing && !(dirty && tagged) && (skipped || (pagesLeft && !sliceUsed) || (!pagesLeft && dirty)) ==>
        x.dirtiedWhen == old(if bDirty != [] && x.dirtiedWhen < bDirty[0].dirtiedWhen then now else x.dirtiedWhen)
      ensures !freeing && !skipped && !pagesLeft && !dirty && timeDirty ==> x.dirtiedWhen == now
      ensures !(dirty && tagged) && !skipped && (if pagesLeft then sliceUsed else !dirty && !timeDirty) ==>
        x.dirtiedWhen == old(x.dirtiedWhen)
      ensures freeing ==> x.dirtiedWhen == old(x.dirtiedWhen)
    {
      hide NoDup, Sorted, NotAfter, Remove, Newest;
      if freeing { return; }
      NothingMore(Remove(bDirty, x));
      NothingMore(Remove(bMoreIo, x));
      NothingMore(Remove(bDirtyTime, x));
      ValidAside(x, now);
      if dirty && tagged {
        Stamp(x, now);
      }
      if skipped {
        RedirtyTail(x, now);
      } else if pagesLeft {
        if sliceUsed { RequeueIo(x, now); } else { RedirtyTail(x, now); }
      } else if dirty {
        RedirtyTail(x, now);
      } else if timeDirty {
        Enqueue(x, now, true);
      } else {
        Delete(x, now);
      }
    }

    predicate On(x: Inode)
      reads this
    {
      x in bDirty || x in bIo || x in bMoreIo || x in bDirtyTime
    }

    /**
     The transfer in inode_switch_wbs_work_fn: an inode that is on a list keeps its time and goes to its place in the other
     queue; one that is on none stays on none.
     */
    method SwitchTo(x: Inode, other: Wb, now: int)
      requires Valid(now) && other.Valid(now) && other != this && !other.On(x)
      modifies this, other
      ensures Valid(now) && other.Valid(now) && Left(x) && x.dirtiedWhen == old(x.dirtiedWhen)
      ensures other.bIo == old(other.bIo) && other.bMoreIo == old(other.bMoreIo) && other.bDirtyTime == old(other.bDirtyTime)
      ensures if old(On(x)) then x in other.bDirty && Remove(other.bDirty, x) == old(other.bDirty) else other.bDirty == old(other.bDirty)
    {
      hide NoDup, Sorted, NotAfter, Remove, Newest;
      ValidAside(x, now);
      if On(x) {
        OnUpTo(x, now);
        Unlink(x, now);
        var k := PlaceFor(other.bDirty, x.dirtiedWhen);
        InsertKeeps(other.bDirty, k, x, now);
        other.bDirty := other.bDirty[..k] + [x] + other.bDirty[k..];
      }
    }

    lemma OnUpTo(x: Inode, now: int)
      requires Valid(now) && On(x)
      ensures x.dirtiedWhen <= now
    {
      UpTo(bDirty, now);
      UpTo(bIo, now);
      UpTo(bMoreIo, now);
      UpTo(bDirtyTime, now);
    }

    /** b_more_io is empty, and the other lists are these. */
    method Settle(dirty: seq<Inode>, io: seq<Inode>, time: seq<Inode>, now: int)
      requires NoDup(dirty + io + [] + time) && Sorted(dirty) && Sorted(time)
      requires NotAfter(dirty, now) && NotAfter(io, now) && NotAfter(time, now)
      modifies this
      ensures Valid(now) && bMoreIo == [] && bDirty == dirty && bIo == io && bDirtyTime == time
    {
      hide Sorted, NotAfter, NoDup;
      Join(dirty, io, [], time);
      UpTo([], now);
      bMoreIo, bDirty, bDirtyTime, bIo := [], dirty, time, io;
    }

    /** queue_io: what could not be finished, then the expired of both queues, in front of what is being written */
    method QueueIo(cutoff: Option, timeCutoff: Option, now: int) returns (moved: nat, ghost late: nat)
      requires Valid(now)
      modifies this
      ensures Valid(now) && bMoreIo == []
      ensures bDirty <= old(bDirty) && bDirtyTime <= old(bDirtyTime)
      ensures forall i {:trigger old(bDirty)[i]} :: 0 <= i < |old(bDirty)| ==> (i < |bDirty| <==> !Expired(old(bDirty)[i], cutoff))
      ensures forall i {:trigger old(bDirtyTime)[i]} :: 0 <= i < |old(bDirtyTime)| ==>
        (i < |bDirtyTime| <==> !Expired(old(bDirtyTime)[i], timeCutoff))
      ensures late <= moved && |bIo| == moved + |old(bMoreIo)| + |old(bIo)| && bIo[moved..] == old(bMoreIo) + old(bIo)
      ensures MovedFrom(bIo[..late], old(bDirtyTime)[|bDirtyTime|..]) && MovedFrom(bIo[late..moved], old(bDirty)[|bDirty|..])
      ensures multiset(bIo) + multiset(bDirty) + multiset(bDirtyTime) ==
        multiset(old(bIo)) + multiset(old(bMoreIo)) + multiset(old(bDirty)) + multiset(old(bDirtyTime))
    {
      hide Sorted, NotAfter, NoDup, Expired, MovedFrom;
      Join(bDirty, bIo, bMoreIo, bDirtyTime);
      var left, left2, queue;
      left, left2, queue, moved, late := QueueBoth(bDirty, bDirtyTime, bMoreIo, bIo, cutoff, timeCutoff, now);
      Settle(left, queue, left2, now);
    }
  }

  /** `x` is not older than any of the list. */
  ghost predicate Newest(x: Inode, l: seq<Inode>)
    reads x, l
  {
    forall y :: y in l ==> x.dirtiedWhen >= y.dirtiedWhen
  }

  lemma NothingMore(l: seq<Inode>)
    ensures [] + l == l
  {
  }

  /** The first of an ordered queue is the newest. */
  lemma FirstNewest(l: seq<Inode>, x: Inode)
    requires Sorted(l) && l != [] && l[0] == x
    ensures Newest(x, Remove(l, x))
  {
    NewestFirst(l, x);
    assert forall y :: y in Remove(l, x) ==> y in l;
  }

  datatype Stamped = Stamped(l: seq<Inode>, x: Inode, now: int)

  /** A new time for an inode that is not on the list changes nothing about the list. */
  twostate lemma StampKeeps(s: Stamped)
    requires s.x !in s.l && forall y :: y in s.l ==> y.dirtiedWhen == old(y.dirtiedWhen)
    requires s.x.dirtiedWhen == s.now
    ensures old(Sorted(s.l)) ==> Sorted(s.l)
    ensures old(NotAfter(s.l, s.now)) ==> NotAfter(s.l, s.now) && Newest(s.x, s.l)
  {
    assert forall i :: 0 <= i < |s.l| ==> s.l[i] in s.l;
    UpTo(s.l, s.now);
  }

  /** An inode that is not older than the first of a queue is not older than any other, even if only those are in order. */
  lemma NewestAside(l: seq<Inode>, x: Inode)
    requires Sorted(Remove(l, x)) && (l != [] && l[0] == x ==> Newest(x, Remove(l, x)))
    ensures l == [] || x.dirtiedWhen >= l[0].dirtiedWhen ==> Newest(x, Remove(l, x))
  {
    if l != [] && l[0] != x && x.dirtiedWhen >= l[0].dirtiedWhen {
      assert Remove(l, x)[0] == l[0];
      NewestFirst(Remove(l, x), x);
    }
  }

  /** What move_expired_inodes moves, as it arrives: in order, or regrouped with each superblock's inodes in order. */
  ghost predicate MovedFrom(r: seq<Inode>, l: seq<Inode>) {
    Regrouped(r, l) && if Mixed(l) then Together(r) else r == l
  }

  /** The two calls of move_expired_inodes in queue_io */
  method QueueBoth(dirty: seq<Inode>, time: seq<Inode>, more: seq<Inode>, io: seq<Inode>, cutoff: Option, timeCutoff: Option, now: int)
    returns (left: seq<Inode>, left2: seq<Inode>, queue2: seq<Inode>, moved: nat, ghost n2: nat)
    requires NoDup(dirty + io + more + time) && Sorted(dirty) && Sorted(time)
    requires NotAfter(dirty, now) && NotAfter(time, now) && NotAfter(more, now) && NotAfter(io, now)
    ensures left <= dirty && left2 <= time && Sorted(left) && Sorted(left2)
    ensures forall i {:trigger dirty[i]} :: 0 <= i < |dirty| ==> (i < |left| <==> !Expired(dirty[i], cutoff))
    ensures forall i {:trigger time[i]} :: 0 <= i < |time| ==> (i < |left2| <==> !Expired(time[i], timeCutoff))
    ensures n2 <= moved && |queue2| == moved + |more| + |io| && queue2[moved..] == more + io
    ensures MovedFrom(queue2[..n2], time[|left2|..]) && MovedFrom(queue2[n2..moved], dirty[|left|..])
    ensures multiset(queue2) + multiset(left) + multiset(left2) == multiset(io) + multiset(more) + multiset(dirty) + multiset(time)
    ensures NoDup(left + queue2 + [] + left2) && NotAfter(left, now) && NotAfter(left2, now) && NotAfter(queue2, now)
  {
    hide Sorted, NotAfter, NoDup, Regrouped, Together, Mixed, Expired;
    var queue, n, late;
    left, queue, n := MoveExpired(dirty, more + io, cutoff);
    SameLength(queue[..n], dirty[|left|..]);
    left2, queue2, late := MoveExpired(time, queue, timeCutoff);
    n2 := late;
    SameLength(queue2[..n2], time[|left2|..]);
    moved := n + late;
    assert queue2[n2..moved] == queue2[n2..][..n];
    QueueKeeps(dirty, time, more, io, left, left2, queue, queue2, n, n2, now);
    PrefixKeeps(dirty, |left|, now);
    PrefixKeeps(time, |left2|, now);
    assert dirty[..|left|] == left && time[..|left2|] == left2;
  }

  lemma PrefixKeeps(l: seq<Inode>, k: nat, now: int)
    requires Sorted(l) && NotAfter(l, now) && k <= |l|
    ensures Sorted(l[..k]) && NotAfter(l[..k], now)
  {
    var m := l[..k];
    assert forall i {:trigger m[i].dirtiedWhen} :: 0 <= i < |m| ==> m[i] == l[i];
  }

  ghost predicate AllUpTo(l: seq<Inode>, now: int)
    reads l
  {
    forall x :: x in l ==> x.dirtiedWhen <= now
  }

  lemma UpTo(l: seq<Inode>, now: int)
    ensures NotAfter(l, now) <==> AllUpTo(l, now)
  {
    if AllUpTo(l, now) {
      forall i {:trigger l[i].dirtiedWhen} | 0 <= i < |l| ensures l[i].dirtiedWhen <= now { assert l[i] in l; }
    }
    if NotAfter(l, now) {
      forall x | x in l ensures x.dirtiedWhen <= now { var i :| 0 <= i < |l| && l[i] == x; assert l[i].dirtiedWhen <= now; }
    }
  }

  lemma {:induction false} NoDupCounts(l: seq<Inode>)
    ensures NoDup(l) <==> forall x :: multiset(l)[x] <= 1
  {
    if l != [] {
      var a := l[..|l| - 1];
      var y := l[|l| - 1];
      NoDupCounts(a);
      assert l == a + [y];
      assert multiset(l) == multiset(a) + multiset{y};
      if NoDup(l) {
        assert NoDup(a) by { assert forall i :: 0 <= i < |a| ==> a[i] == l[i]; }
        assert y !in a;
        forall x ensures multiset(l)[x] <= 1 { assert multiset(a)[x] <= 1; }
      }
      if forall x :: multiset(l)[x] <= 1 {
        forall x ensures multiset(a)[x] <= 1 { assert multiset(l)[x] <= 1; }
        assert multiset(l)[y] <= 1;
        assert y !in a;
      }
    }
  }

  /** Lists that together hold what lists without repetitions held are without repetitions, and apart from each other. */
  lemma NoDupShuffled(l: seq<Inode>, m: seq<Inode>)
    requires NoDup(l) && multiset(l) == multiset(m)
    ensures NoDup(m) && forall x :: x in m <==> x in l
  {
    NoDupCounts(l);
    NoDupCounts(m);
    forall x ensures x in m <==> x in l {
      assert x in m <==> x in multiset(m);
      assert x in l <==> x in multiset(l);
    }
  }

  lemma Join(a: seq<Inode>, b: seq<Inode>, c: seq<Inode>, d: seq<Inode>)
    ensures NoDup(a + b + c + d) <==>
      && NoDup(a) && NoDup(b) && NoDup(c) && NoDup(d)
      && (forall x :: x in a ==> x !in b && x !in c && x !in d) && (forall x :: x in b ==> x !in c && x !in d)
      && (forall x :: x in c ==> x !in d)
  {
    Join2(a, b);
    Join2(a + b, c);
    Join2(a + b + c, d);
  }

  lemma Join2(a: seq<Inode>, b: seq<Inode>)
    ensures NoDup(a + b) <==> NoDup(a) && NoDup(b) && forall x :: x in a ==> x !in b
  {
    if NoDup(a + b) {
      assert NoDup(a) by { assert forall i :: 0 <= i < |a| ==> a[i] == (a + b)[i]; }
      assert NoDup(b) by { assert forall i :: 0 <= i < |b| ==> b[i] == (a + b)[|a| + i]; }
      forall x | x in a ensures x !in b { DisjointHalves(a, b, x); }
    }
    if NoDup(a) && NoDup(b) && forall x :: x in a ==> x !in b { NoDupAppend(a, b); }
  }

  lemma SplitQueue(q: seq<Inode>, n: nat, rest: seq<Inode>, l: seq<Inode>, k: nat)
    requires k <= |l| && n <= |q| && q[n..] == rest && multiset(q[..n]) == multiset(l[k..])
    ensures multiset(q) + multiset(l[..k]) == multiset(rest) + multiset(l)
  {
    assert q == q[..n] + q[n..];
    assert l == l[..k] + l[k..];
  }

  lemma Balance(q: multiset<Inode>, l: multiset<Inode>, m: multiset<Inode>, i: multiset<Inode>, d: multiset<Inode>,
                q2: multiset<Inode>, l2: multiset<Inode>, t: multiset<Inode>)
    requires q + l == m + i + d && q2 + l2 == q + t
    ensures q2 + l + l2 == i + m + d + t && l + q2 + multiset{} + l2 == d + i + m + t
  {
    forall x ensures (q2 + l + l2)[x] == (i + m + d + t)[x] && (l + q2 + multiset{} + l2)[x] == (d + i + m + t)[x] {
      assert (q + l)[x] == (m + i + d)[x] && (q2 + l2)[x] == (q + t)[x];
    }
  }

  lemma QueueKeeps(dirty: seq<Inode>, time: seq<Inode>, more: seq<Inode>, io: seq<Inode>, left: seq<Inode>, left2: seq<Inode>,
                   queue: seq<Inode>, queue2: seq<Inode>, n: nat, n2: nat, now: int)
    requires NoDup(dirty + io + more + time) && left <= dirty && left2 <= time
    requires n <= |queue| && queue[n..] == more + io && multiset(queue[..n]) == multiset(dirty[|left|..])
    requires n2 <= |queue2| && queue2[n2..] == queue && multiset(queue2[..n2]) == multiset(time[|left2|..])
    requires NotAfter(dirty, now) && NotAfter(time, now) && NotAfter(more, now) && NotAfter(io, now)
    ensures NoDup(left + queue2 + [] + left2) && NotAfter(queue2, now)
    ensures multiset(queue2) + multiset(left) + multiset(left2) == multiset(io) + multiset(more) + multiset(dirty) + multiset(time)
    ensures queue2[n + n2..] == more + io && |queue2| == n + n2 + |more| + |io|
  {
    hide NoDup, NotAfter;
    assert left == dirty[..|left|] && left2 == time[..|left2|];
    SplitQueue(queue, n, more + io, dirty, |left|);
    SplitQueue(queue2, n2, queue, time, |left2|);
    var before, after := dirty + io + more + time, left + queue2 + [] + left2;
    var none: seq<Inode> := [];
    assert multiset(none) == multiset{};
    assert multiset(more + io) == multiset(more) + multiset(io);
    assert multiset(before) == multiset(dirty) + multiset(io) + multiset(more) + multiset(time);
    assert multiset(after) == multiset(left) + multiset(queue2) + multiset(none) + multiset(left2);
    Balance(multiset(queue), multiset(left), multiset(more), multiset(io), multiset(dirty), multiset(queue2),
      multiset(left2), multiset(time));
    assert |queue2[n2..]| == |queue| && |queue[n..]| == |more + io|;
    NoDupShuffled(before, after);
    UpTo(dirty, now);
    UpTo(time, now);
    UpTo(more, now);
    UpTo(io, now);
    UpTo(queue2, now);
    forall x | x in queue2 ensures x.dirtiedWhen <= now { assert x in after; assert x in before; }
    assert queue2[n2..][n..] == queue2[n + n2..];
  }

  lemma InsertKeeps(l: seq<Inode>, k: nat, x: Inode, now: int)
    requires Sorted(l) && NotAfter(l, now) && NoDup(l) && k <= |l| && x !in l && x.dirtiedWhen <= now
    requires forall i {:trigger l[i].dirtiedWhen} :: 0 <= i < k ==> l[i].dirtiedWhen > x.dirtiedWhen
    requires forall i {:trigger l[i].dirtiedWhen} :: k <= i < |l| ==> l[i].dirtiedWhen <= x.dirtiedWhen
    ensures var m := l[..k] + [x] + l[k..];
      Sorted(m) && NotAfter(m, now) && NoDup(m) && (forall y :: y in m <==> y == x || y in l) && Remove(m, x) == l
  {
    var m := l[..k] + [x] + l[k..];
    SortedInsert(l, k, x);
    assert l == l[..k] + l[k..];
    assert m[k] == x;
    NoDupInsert(l, k, x);
    NoDupIndex(m, k);
    assert m[..k] == l[..k] && m[k + 1..] == l[k..];
    forall i {:trigger m[i].dirtiedWhen} | 0 <= i < |m| ensures m[i].dirtiedWhen <= now {
      assert i < k ==> m[i] == l[i];
      assert i > k ==> m[i] == l[i - 1];
    }
  }

  lemma NoDupInsert(l: seq<Inode>, k: nat, x: Inode)
    requires NoDup(l) && k <= |l| && x !in l
    ensures NoDup(l[..k] + [x] + l[k..])
  {
    assert l == l[..k] + l[k..];
    Join2(l[..k], l[k..]);
    SingletonNoDup(x);
    Join2(l[..k], [x]);
    Join2(l[..k] + [x], l[k..]);
  }

  lemma LaterRemove(l: seq<Inode>, x: Inode, now: int)
    requires NotAfter(l, now) && NoDup(l)
    ensures NotAfter(Remove(l, x), now) && NoDup(Remove(l, x)) && forall y :: y in Remove(l, x) <==> y in l && y != x
  {
    RemoveContents(l, x);
    var r := Remove(l, x);
    forall i {:trigger r[i].dirtiedWhen} | 0 <= i < |r| ensures r[i].dirtiedWhen <= now {
      assert r[i] in r;
      var j :| 0 <= j < |l| && l[j] == r[i];
    }
  }

  /** An inode that is not older than the first of the queue is not older than any. */
  lemma NewestFirst(l: seq<Inode>, x: Inode)
    requires Sorted(l)
    ensures l == [] || x.dirtiedWhen >= l[0].dirtiedWhen ==> forall y :: y in l ==> x.dirtiedWhen >= y.dirtiedWhen
  {
    if l != [] && x.dirtiedWhen >= l[0].dirtiedWhen {
      forall y | y in l ensures x.dirtiedWhen >= y.dirtiedWhen {
        var j :| 0 <= j < |l| && l[j] == y;
        assert l[0].dirtiedWhen >= l[j].dirtiedWhen;
      }
    }
  }

  lemma OneMore(l: seq<Inode>, x: Inode, now: int)
    requires NotAfter(l, now) && x.dirtiedWhen <= now && NoDup(l) && x !in l
    ensures NotAfter([x] + l, now) && NoDup([x] + l)
  {
    SingletonNoDup(x);
    NoDupAppend([x], l);
  }

  lemma PushKeeps(l: seq<Inode>, x: Inode, now: int)
    requires Sorted(l) && NotAfter(l, now) && x.dirtiedWhen <= now && NoDup(l) && x !in l
    ensures NotAfter([x] + l, now) && NoDup([x] + l)
    ensures Newest(x, l) || x.dirtiedWhen == now ==> Sorted([x] + l)
  {
    hide NoDup;
    OneMore(l, x, now);
    if Newest(x, l) || x.dirtiedWhen == now {
      assert forall i {:trigger l[i].dirtiedWhen} :: 0 <= i < |l| ==> l[i] in l && l[i].dirtiedWhen <= x.dirtiedWhen;
      SortedInsert(l, 0, x);
      assert l[..0] + [x] + l[0..] == [x] + l;
    }
  }
}
