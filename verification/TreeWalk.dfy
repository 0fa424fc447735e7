/** The walk over a mount tree without a stack: next_mnt and skip_mnt_tree. */
module TreeWalk {
  import opened Lists
  import opened Propagation
  import opened Umount

  /** A mount tree in which every mount but the roots is on its parent's list, and nothing is deeper than `top`. */
  ghost predicate Whole(S: set<Mount>, top: int)
    reads S`parent, S`mounts, S`depth
  {
    && Tree(S)
    && (forall c {:trigger c.parent} :: c in S && c.parent != c ==> c in c.parent.mounts)
    && (forall c {:trigger c.depth} :: c in S ==> c.depth <= top)
  }

  lemma ChildIn(S: set<Mount>, top: int, m: Mount, i: nat)
    requires Whole(S, top) && m in S && i < |m.mounts|
    ensures m.mounts[i] in S && m.mounts[i].parent == m && m.mounts[i] != m && m.depth < m.mounts[i].depth <= top
    ensures IndexOf(m.mounts, m.mounts[i]) == i
  {
    assert m.mounts[i] in m.mounts;
    NoDupIndex(m.mounts, i);
  }

  /** The children of `m` from place `i` on, each followed by everything below it. */
  ghost function Kids(S: set<Mount>, top: int, m: Mount, i: nat): (r: seq<Mount>)
    requires Whole(S, top) && m in S && i <= |m.mounts|
    reads S`parent, S`mounts, S`depth
    ensures forall k :: 0 <= k < |r| ==> r[k] in S
    decreases top - m.depth, |m.mounts| - i
  {
    if i == |m.mounts| then []
    else
      ChildIn(S, top, m, i);
      [m.mounts[i]] + Kids(S, top, m.mounts[i], 0) + Kids(S, top, m, i + 1)
  }

  lemma KidsStep(S: set<Mount>, top: int, m: Mount, i: nat)
    requires Whole(S, top) && m in S && i <= |m.mounts|
    ensures i == |m.mounts| ==> Kids(S, top, m, i) == []
    ensures i < |m.mounts| ==> m.mounts[i] in S && m.mounts[i].parent == m && m.mounts[i] != m && m.depth < m.mounts[i].depth <= top
    ensures i < |m.mounts| ==> Kids(S, top, m, i) == [m.mounts[i]] + Kids(S, top, m.mounts[i], 0) + Kids(S, top, m, i + 1)
    ensures i < |m.mounts| ==> IndexOf(m.mounts, m.mounts[i]) == i && m.mounts[i] in m.mounts
  {
    if i < |m.mounts| { ChildIn(S, top, m, i); }
  }

  /** `m` is `r` or below it. */
  ghost predicate Inside(S: set<Mount>, m: Mount, r: Mount)
    requires Tree(S) && m in S
    reads S`parent, S`mounts, S`depth
    decreases m.depth
  {
    m == r || (m.parent != m && (assert m.parent.depth < m.depth; Inside(S, m.parent, r)))
  }

  /** What the walk over `r` still meets once everything below `m` has been met. */
  ghost function Rest(S: set<Mount>, top: int, m: Mount, r: Mount): seq<Mount>
    requires Whole(S, top) && m in S && Inside(S, m, r)
    reads S`parent, S`mounts, S`depth
    decreases m.depth
  {
    if m == r then []
    else
      assert m.parent.depth < m.depth;
      Kids(S, top, m.parent, IndexOf(m.parent.mounts, m) + 1) + Rest(S, top, m.parent, r)
  }

  /** The walk over `r` stands at `m` and has exactly `left` to go. */
  ghost predicate At(S: set<Mount>, top: int, m: Mount, r: Mount, left: seq<Mount>)
    reads S`parent, S`mounts, S`depth
  {
    Whole(S, top) && m in S && Inside(S, m, r) && left == Kids(S, top, m, 0) + Rest(S, top, m, r)
  }

  /** Everything below `m` has been met. */
  ghost predicate Past(S: set<Mount>, top: int, m: Mount, r: Mount, left: seq<Mount>)
    reads S`parent, S`mounts, S`depth
  {
    Whole(S, top) && m in S && Inside(S, m, r) && left == Rest(S, top, m, r)
  }

  lemma GoDown(S: set<Mount>, top: int, m: Mount, r: Mount, left: seq<Mount>)
    requires At(S, top, m, r, left)
    ensures m.mounts == [] ==> Past(S, top, m, r, left)
    ensures m.mounts != [] ==> left != [] && left[0] == m.mounts[0] && At(S, top, m.mounts[0], r, left[1..])
  {
    hide Whole, Tree, Kids, Rest;
    KidsStep(S, top, m, 0);
    if m.mounts != [] {
      var c := m.mounts[0];
      StepInto(S, top, m, r, 0);
      Unfold(left, c, Kids(S, top, c, 0), Kids(S, top, m, 1), Rest(S, top, m, r));
    }
  }

  lemma Unfold(left: seq<Mount>, c: Mount, below: seq<Mount>, later: seq<Mount>, rest: seq<Mount>)
    requires left == [c] + below + later + rest
    ensures left != [] && left[0] == c && left[1..] == below + (later + rest)
  {
  }

  /** What is left after a child of `m` is the later children and what is left after `m`. */
  lemma StepInto(S: set<Mount>, top: int, m: Mount, r: Mount, i: nat)
    requires Whole(S, top) && m in S && Inside(S, m, r) && i < |m.mounts|
    ensures m.mounts[i] in S && Inside(S, m.mounts[i], r)
    ensures Rest(S, top, m.mounts[i], r) == Kids(S, top, m, i + 1) + Rest(S, top, m, r)
  {
    KidsStep(S, top, m, i);
    AboveRoot(S, m, r);
  }

  lemma AboveRoot(S: set<Mount>, m: Mount, r: Mount)
    requires Tree(S) && m in S && Inside(S, m, r)
    ensures r.depth <= m.depth
    decreases m.depth
  {
    if m != r {
      assert m.parent.depth < m.depth;
      AboveRoot(S, m.parent, r);
    }
  }

  lemma GoOn(S: set<Mount>, top: int, m: Mount, r: Mount, left: seq<Mount>)
    requires Past(S, top, m, r, left)
    ensures m == r ==> left == []
    ensures m != r ==> m.parent in S && m in m.parent.mounts && 0 <= m.parent.depth < m.depth
    ensures m != r ==> var i := IndexOf(m.parent.mounts, m) + 1;
      if i < |m.parent.mounts|
      then left != [] && left[0] == m.parent.mounts[i] && At(S, top, m.parent.mounts[i], r, left[1..])
      else Past(S, top, m.parent, r, left)
  {
    if m != r {
      assert m.parent.depth < m.depth && 0 <= m.parent.depth;
      var i := IndexOf(m.parent.mounts, m) + 1;
      KidsStep(S, top, m.parent, i);
      if i < |m.parent.mounts| {
        var c := m.parent.mounts[i];
        StepInto(S, top, m.parent, r, i);
        assert left == [c] + (Kids(S, top, c, 0) + Rest(S, top, c, r));
      }
    }
  }

  /** next_mnt */
  method NextMnt(ghost S: set<Mount>, ghost top: int, from: Mount, root: Mount, ghost left: seq<Mount>) returns (r: Mount?)
    requires At(S, top, from, root, left)
    ensures r == null ==> left == []
    ensures r != null ==> left != [] && r == left[0] && At(S, top, r, root, left[1..])
  {
    hide At, Past;
    var p := from;
    GoDown(S, top, p, root, left);
    if p.mounts != [] { return p.mounts[0]; }
    while true
      invariant Past(S, top, p, root, left)
      decreases p.depth
    {
      GoOn(S, top, p, root, left);
      if p == root { return null; }
      var i := IndexOf(p.parent.mounts, p) + 1;
      if i < |p.parent.mounts| { return p.parent.mounts[i]; }
      p := p.parent;
    }
  }

  /** skip_mnt_tree: the walk goes on from the last mount below `from` as it would after everything below `from` */
  method SkipMntTree(ghost S: set<Mount>, ghost top: int, from: Mount, ghost root: Mount, ghost left: seq<Mount>) returns (r: Mount)
    requires Past(S, top, from, root, left)
    ensures At(S, top, r, root, left)
  {
    hide Whole, Tree;
    r := from;
    assert r in S && r.depth <= top by { Deepest(S, top, r); }
    while r.mounts != []
      invariant Past(S, top, r, root, left) && r.depth <= top
      decreases top - r.depth
    {
      StepInto(S, top, r, root, |r.mounts| - 1);
      KidsStep(S, top, r, |r.mounts| - 1);
      KidsStep(S, top, r, |r.mounts|);
      r := r.mounts[|r.mounts| - 1];
    }
    KidsStep(S, top, r, 0);
  }

  lemma Deepest(S: set<Mount>, top: int, m: Mount)
    requires Whole(S, top) && m in S
    ensures m.depth <= top
  {
  }

  // ---------------------------------------------------------------- what the walk meets

  lemma InsideTrans(S: set<Mount>, a: Mount, b: Mount, c: Mount)
    requires Tree(S) && a in S && b in S && Inside(S, a, b) && Inside(S, b, c)
    ensures Inside(S, a, c)
    decreases a.depth
  {
    if a != b {
      assert a.parent.depth < a.depth;
      InsideTrans(S, a.parent, b, c);
    }
  }

  /** Two mounts with the same one below them are below each other. */
  lemma Comparable(S: set<Mount>, y: Mount, a: Mount, b: Mount)
    requires Tree(S) && y in S && a in S && b in S && Inside(S, y, a) && Inside(S, y, b)
    ensures Inside(S, a, b) || Inside(S, b, a)
    decreases y.depth
  {
    if y != a && y != b {
      assert y.parent.depth < y.depth;
      Comparable(S, y.parent, a, b);
    }
  }

  ghost predicate UnderChild(S: set<Mount>, m: Mount, i: nat, y: Mount)
    requires Tree(S) && m in S && y in S
    reads S`parent, S`mounts, S`depth
  {
    exists j {:trigger m.mounts[j]} :: i <= j < |m.mounts| && Inside(S, y, m.mounts[j])
  }

  lemma SiblingsApart(S: set<Mount>, top: int, m: Mount, i: nat, j: nat, y: Mount)
    requires Whole(S, top) && m in S && y in S && i < j < |m.mounts| && Inside(S, y, m.mounts[i])
    ensures !Inside(S, y, m.mounts[j])
  {
    ChildIn(S, top, m, i);
    ChildIn(S, top, m, j);
    if Inside(S, y, m.mounts[j]) {
      var a, b := m.mounts[i], m.mounts[j];
      Comparable(S, y, a, b);
      if Inside(S, a, b) { AboveRoot(S, m, b); } else { AboveRoot(S, m, a); }
      assert false;
    }
  }

  lemma BelowByChild(S: set<Mount>, top: int, m: Mount, y: Mount)
    requires Whole(S, top) && m in S && y in S
    ensures y != m && Inside(S, y, m) <==> UnderChild(S, m, 0, y)
    decreases y.depth
  {
    if y != m && Inside(S, y, m) {
      assert y.parent.depth < y.depth;
      if y.parent == m {
        assert y in m.mounts;
        assert Inside(S, y, m.mounts[IndexOf(m.mounts, y)]);
      } else {
        BelowByChild(S, top, m, y.parent);
        var j :| 0 <= j < |m.mounts| && Inside(S, y.parent, m.mounts[j]);
        assert Inside(S, y, m.mounts[j]);
      }
    }
    if UnderChild(S, m, 0, y) {
      var j :| 0 <= j < |m.mounts| && Inside(S, y, m.mounts[j]);
      ChildIn(S, top, m, j);
      assert Inside(S, m.mounts[j], m);
      InsideTrans(S, y, m.mounts[j], m);
      AboveRoot(S, y, m.mounts[j]);
    }
  }

  /** The list from place `i` on holds exactly what is under those children, each once. */
  lemma KidsContents(S: set<Mount>, top: int, m: Mount, i: nat)
    requires Whole(S, top) && m in S && i <= |m.mounts|
    ensures forall y :: y in Kids(S, top, m, i) <==> y in S && UnderChild(S, m, i, y)
    ensures NoDup(Kids(S, top, m, i))
    decreases top - m.depth, |m.mounts| - i
  {
    hide NoDup, Inside;
    KidsStep(S, top, m, i);
    if i == |m.mounts| {
      EmptyNoDup<Mount>();
    } else {
      var c := m.mounts[i];
      var b, f := Kids(S, top, c, 0), Kids(S, top, m, i + 1);
      KidsContents(S, top, c, 0);
      KidsContents(S, top, m, i + 1);
      forall y | y in S ensures y in b <==> y != c && Inside(S, y, c) { BelowByChild(S, top, c, y); }
      KidsTogether(S, top, m, i, b, f);
    }
  }

  lemma KidsTogether(S: set<Mount>, top: int, m: Mount, i: nat, b: seq<Mount>, f: seq<Mount>)
    requires Whole(S, top) && Tree(S) && m in S && i < |m.mounts| && m.mounts[i] in S && NoDup(b) && NoDup(f)
    requires forall y :: y in b ==> y in S
    requires forall y :: y in S ==> (y in b <==> y != m.mounts[i] && Inside(S, y, m.mounts[i]))
    requires forall y :: y in f <==> y in S && UnderChild(S, m, i + 1, y)
    ensures forall y :: y in [m.mounts[i]] + b + f <==> y in S && UnderChild(S, m, i, y)
    ensures NoDup([m.mounts[i]] + b + f)
  {
    hide NoDup, Whole, Tree;
    var c := m.mounts[i];
    forall y | y in S ensures UnderChild(S, m, i, y) <==> y == c || y in b || y in f {
      if y == c || y in b { assert Inside(S, y, m.mounts[i]); }
      if y in f { var j :| i + 1 <= j < |m.mounts| && Inside(S, y, m.mounts[j]); }
      if UnderChild(S, m, i, y) {
        var j :| i <= j < |m.mounts| && Inside(S, y, m.mounts[j]);
        if j > i { assert UnderChild(S, m, i + 1, y); }
      }
    }
    SingletonNoDup(c);
    NoDupAppend([c], b);
    forall y | y in [c] + b ensures y !in f {
      if y in f {
        var j :| i + 1 <= j < |m.mounts| && Inside(S, y, m.mounts[j]);
        SiblingsApart(S, top, m, i, j, y);
        assert false;
      }
    }
    NoDupAppend([c] + b, f);
  }

  /** Walking over everything below a mount meets each mount below it once and nothing else. */
  lemma WalkMeetsAllOnce(S: set<Mount>, top: int, m: Mount)
    requires Whole(S, top) && m in S
    ensures NoDup(Kids(S, top, m, 0))
    ensures forall y :: y in Kids(S, top, m, 0) <==> y in S && y != m && Inside(S, y, m)
  {
    hide NoDup, Inside, UnderChild;
    KidsContents(S, top, m, 0);
    forall y | y in S ensures UnderChild(S, m, 0, y) <==> y != m && Inside(S, y, m) { BelowByChild(S, top, m, y); }
  }

  /** Where the walk goes after everything below `m`, it comes back up to a mount above `m`. */
  lemma RestParent(S: set<Mount>, top: int, m: Mount, r: Mount)
    requires Whole(S, top) && m in S && Inside(S, m, r) && Rest(S, top, m, r) != []
    ensures m != r && m.parent in S && Rest(S, top, m, r)[0] in S && Inside(S, m.parent, Rest(S, top, m, r)[0].parent)
    decreases m.depth
  {
    assert m.parent.depth < m.depth;
    var i := IndexOf(m.parent.mounts, m) + 1;
    KidsStep(S, top, m.parent, i);
    if i == |m.parent.mounts| {
      RestParent(S, top, m.parent, r);
    }
  }

  /** The next stop of the walk hangs on the one before, or on one above it. */
  lemma NextParent(S: set<Mount>, top: int, m: Mount, r: Mount, left: seq<Mount>)
    requires At(S, top, m, r, left) && left != []
    ensures m in S && left[0] in S && Inside(S, m, left[0].parent)
  {
    KidsStep(S, top, m, 0);
    if m.mounts == [] {
      RestParent(S, top, m, r);
    }
  }

  lemma LaterSiblings(S: set<Mount>, top: int, m: Mount, i: nat, j: nat)
    requires Whole(S, top) && m in S && i <= j < |m.mounts|
    ensures m.mounts[j] in Kids(S, top, m, i)
    decreases j - i
  {
    KidsStep(S, top, m, i);
    if i < j { LaterSiblings(S, top, m, i + 1, j); }
  }

  lemma RestInside(S: set<Mount>, top: int, m: Mount, r: Mount)
    requires Whole(S, top) && m in S && Inside(S, m, r) && Rest(S, top, m, r) != []
    ensures Rest(S, top, m, r)[0] in S && Rest(S, top, m, r)[0].parent in S && Inside(S, Rest(S, top, m, r)[0].parent, r)
    decreases m.depth
  {
    assert m.parent.depth < m.depth;
    var i := IndexOf(m.parent.mounts, m) + 1;
    KidsStep(S, top, m.parent, i);
    if i == |m.parent.mounts| { RestInside(S, top, m.parent, r); }
  }

  /** The walk over `r` does not leave it. */
  lemma NextInside(S: set<Mount>, top: int, m: Mount, r: Mount, left: seq<Mount>)
    requires At(S, top, m, r, left) && left != []
    ensures left[0] in S && left[0].parent in S && Inside(S, left[0].parent, r)
  {
    KidsStep(S, top, m, 0);
    if m.mounts == [] { RestInside(S, top, m, r); }
  }
}
