/** copy_tree: a copy of a mount tree, pruned, built along a walk with two pointers climbing side by side. */
module CopyTree {
  import opened Lists
  import opened Propagation
  import opened Umount
  import opened TreeWalk

  /** What is copied: CL_COPY_UNBINDABLE, CL_COPY_MNT_NS_FILE, the ns files, and the dentries below the one to be copied. */
  datatype How = How(unbindable: bool, nsFiles: bool, ns: set<Dentry>, below: set<Dentry>)

  ghost predicate Pruned(m: Mount, how: How)
    reads m`unbindable, m`root
  {
    (!how.unbindable && m.unbindable) || (!how.nsFiles && m.root in how.ns)
  }

  /** Whether `m` is to be copied: nothing on the way from it to `mnt` is pruned or outside the dentry. */
  ghost predicate Kept(S: set<Mount>, mnt: Mount, how: How, m: Mount)
    requires Tree(S) && m in S
    reads S`parent, S`mounts, S`depth, S`unbindable, S`root, S`mountpoint
    decreases m.depth
  {
    m == mnt
    || (m.parent != m && !Pruned(m, how) && (m.parent == mnt ==> m.mountpoint in how.below)
        && (assert m.parent.depth < m.depth; Kept(S, mnt, how, m.parent)))
  }

  /**
   `way` leads down from `mnt`, one child after the other, and nothing on it is left out: it starts inside the dentry, and no
   mount on it is unbindable, or of a namespace file, unless those are copied as well.
   */
  ghost predicate OpenWay(S: set<Mount>, mnt: Mount, how: How, way: seq<Mount>)
    requires Within(way, S) && |way| > 0
    reads S`parent, S`unbindable, S`root, S`mountpoint
  {
    && way[0] == mnt && (|way| > 1 ==> way[1].mountpoint in how.below)
    && (forall i {:trigger way[i]} :: 0 < i < |way| ==> way[i].parent == way[i - 1] && way[i - 1] != way[i])
    && (!how.unbindable ==> forall i {:trigger way[i]} :: 0 < i < |way| ==> !way[i].unbindable)
    && (!how.nsFiles ==> forall i {:trigger way[i]} :: 0 < i < |way| ==> way[i].root !in how.ns)
  }

  /** An open way leads to `m`. */
  ghost predicate ToCopy(S: set<Mount>, mnt: Mount, how: How, m: Mount)
    reads S`parent, S`unbindable, S`root, S`mountpoint
  {
    exists way: seq<Mount> :: Within(way, S) && |way| > 0 && OpenWay(S, mnt, how, way) && way[|way| - 1] == m
  }

  lemma Shorter(S: set<Mount>, mnt: Mount, how: How, way: seq<Mount>)
    requires Within(way, S) && |way| > 1 && OpenWay(S, mnt, how, way)
    ensures var w := way[..|way| - 1]; Within(w, S) && OpenWay(S, mnt, how, w)
    ensures var m, p := way[|way| - 1], way[|way| - 2]; m.parent == p && m != p && !Pruned(m, how)
    ensures |way| == 2 ==> way[1].mountpoint in how.below
  {
  }

  lemma OnlyHere(S: set<Mount>, mnt: Mount, how: How)
    requires mnt in S
    ensures Within([mnt], S) && OpenWay(S, mnt, how, [mnt])
  {
  }

  lemma FirstOf(S: set<Mount>, mnt: Mount, how: How, way: seq<Mount>)
    requires Within(way, S) && |way| > 0 && OpenWay(S, mnt, how, way)
    ensures way[0] == mnt
  {
  }

  lemma Longer(S: set<Mount>, mnt: Mount, how: How, w: seq<Mount>, m: Mount)
    requires Within(w, S) && |w| > 0 && OpenWay(S, mnt, how, w) && m in S && m.parent == w[|w| - 1] && m.parent != m
    requires !Pruned(m, how) && (|w| == 1 ==> m.mountpoint in how.below)
    ensures Within(w + [m], S) && OpenWay(S, mnt, how, w + [m])
  {
  }

  lemma {:induction false} KeptHasWay(S: set<Mount>, mnt: Mount, how: How, m: Mount) returns (way: seq<Mount>)
    requires Tree(S) && mnt in S && m in S && Kept(S, mnt, how, m)
    ensures Within(way, S) && |way| > 0 && OpenWay(S, mnt, how, way) && way[|way| - 1] == m
    decreases m.depth
  {
    hide NoDup, OpenWay;
    if m == mnt {
      way := [m];
      OnlyHere(S, mnt, how);
    } else {
      assert m.parent.depth < m.depth;
      var w := KeptHasWay(S, mnt, how, m.parent);
      FirstOf(S, mnt, how, w);
      Longer(S, mnt, how, w, m);
      way := w + [m];
    }
  }

  lemma {:induction false} NotBackUp(S: set<Mount>, mnt: Mount, how: How, way: seq<Mount>)
    requires Tree(S) && Within(way, S) && |way| > 0 && OpenWay(S, mnt, how, way)
    ensures |way| > 1 ==> way[|way| - 1].depth > mnt.depth
  {
    hide NoDup, OpenWay;
    FirstOf(S, mnt, how, way);
    if |way| > 1 {
      Shorter(S, mnt, how, way);
      NotBackUp(S, mnt, how, way[..|way| - 1]);
    }
  }

  lemma {:induction false} WayIsKept(S: set<Mount>, mnt: Mount, how: How, way: seq<Mount>)
    requires Tree(S) && mnt in S && Within(way, S) && |way| > 0 && OpenWay(S, mnt, how, way)
    ensures Kept(S, mnt, how, way[|way| - 1])
  {
    hide NoDup, OpenWay;
    FirstOf(S, mnt, how, way);
    if |way| > 1 {
      Shorter(S, mnt, how, way);
      WayIsKept(S, mnt, how, way[..|way| - 1]);
      NotBackUp(S, mnt, how, way[..|way| - 1]);
    }
  }

  lemma KeptExact(S: set<Mount>, mnt: Mount, how: How, m: Mount)
    requires Tree(S) && mnt in S && m in S
    ensures Kept(S, mnt, how, m) <==> ToCopy(S, mnt, how, m)
  {
    hide Tree, Kept, OpenWay;
    if Kept(S, mnt, how, m) {
      var way := KeptHasWay(S, mnt, how, m);
    }
    if ToCopy(S, mnt, how, m) {
      var way: seq<Mount> :| Within(way, S) && |way| > 0 && OpenWay(S, mnt, how, way) && way[|way| - 1] == m;
      WayIsKept(S, mnt, how, way);
    }
  }

  lemma KeptInside(S: set<Mount>, mnt: Mount, how: How, m: Mount)
    requires Tree(S) && m in S && Kept(S, mnt, how, m)
    ensures Inside(S, m, mnt)
    decreases m.depth
  {
    if m != mnt {
      assert m.parent.depth < m.depth;
      KeptInside(S, mnt, how, m.parent);
    }
  }

  /** Nothing below a mount that is not kept is kept, unless the root is. */
  lemma NoneKeptBelow(S: set<Mount>, mnt: Mount, how: How, s: Mount, y: Mount)
    requires Tree(S) && mnt in S && s in S && y in S && Inside(S, y, s) && Inside(S, s, mnt) && !Kept(S, mnt, how, s)
    ensures !Kept(S, mnt, how, y)
    decreases y.depth
  {
    if y == mnt {
      AboveRoot(S, y, s);
      AboveRoot(S, s, mnt);
      SameDepth(S, s, mnt);
    } else if y != s {
      assert y.parent.depth < y.depth;
      NoneKeptBelow(S, mnt, how, s, y.parent);
    }
  }

  lemma SameDepth(S: set<Mount>, a: Mount, b: Mount)
    requires Tree(S) && a in S && b in S && Inside(S, a, b) && a.depth <= b.depth
    ensures a == b
  {
    if a != b {
      assert a.parent.depth < a.depth;
      AboveRoot(S, a.parent, b);
    }
  }

  /** The elements of `l` that are in `K`, in order. */
  ghost function Chosen(l: seq<Mount>, K: set<Mount>): (r: seq<Mount>)
    ensures forall x :: x in r ==> x in l && x in K
  {
    if l == [] then [] else (if l[0] in K then [l[0]] else []) + Chosen(l[1..], K)
  }

  ghost function Clones(cl: map<Mount, Mount>, l: seq<Mount>): seq<Mount>
    requires forall x :: x in l ==> x in cl
  {
    if l == [] then [] else [cl[l[0]]] + Clones(cl, l[1..])
  }

  lemma {:induction false} ChosenAppend(a: seq<Mount>, b: seq<Mount>, K: set<Mount>)
    ensures Chosen(a + b, K) == Chosen(a, K) + Chosen(b, K)
  {
    if a == [] {
      assert a + b == b;
    } else {
      var head := if a[0] in K then [a[0]] else [];
      calc {
        Chosen(a + b, K);
        { assert (a + b)[1..] == a[1..] + b; }
        head + Chosen(a[1..] + b, K);
        { ChosenAppend(a[1..], b, K); }
        head + (Chosen(a[1..], K) + Chosen(b, K));
        { Reassociate(head, Chosen(a[1..], K), Chosen(b, K)); }
        Chosen(a, K) + Chosen(b, K);
      }
    }
  }

  lemma {:induction false} ChosenSame(l: seq<Mount>, K: set<Mount>, s: Mount)
    requires s !in l
    ensures Chosen(l, K + {s}) == Chosen(l, K)
  {
    if l != [] { ChosenSame(l[1..], K, s); }
  }

  lemma {:induction false} ChosenNone(l: seq<Mount>, K: set<Mount>)
    requires forall x :: x in l ==> x !in K
    ensures Chosen(l, K) == []
  {
    if l != [] { ChosenNone(l[1..], K); }
  }

  lemma ChosenFront(s: Mount, b: seq<Mount>, K: set<Mount>)
    ensures Chosen([s] + b, K) == (if s in K then [s] else []) + Chosen(b, K)
  {
    assert ([s] + b)[1..] == b;
  }

  lemma SplitAt(l: seq<Mount>, i: nat, K: set<Mount>)
    requires NoDup(l) && i < |l| && forall j :: i < j < |l| ==> l[j] !in K
    ensures l == l[..i] + ([l[i]] + l[i + 1..]) && l[i] !in l[..i] && l[i] !in l[i + 1..] && forall x :: x in l[i + 1..] ==> x !in K
  {
    forall x | x in l[i + 1..] ensures x !in K { var j :| 0 <= j < |l[i + 1..]| && l[i + 1..][j] == x; assert l[i + 1 + j] == x; }
  }

  /** A mount after which nothing has been chosen yet comes last. */
  lemma ChosenLast(l: seq<Mount>, i: nat, K: set<Mount>)
    requires NoDup(l) && i < |l| && l[i] !in K && forall j :: i < j < |l| ==> l[j] !in K
    ensures Chosen(l, K + {l[i]}) == Chosen(l, K) + [l[i]]
  {
    hide Chosen, NoDup;
    SplitAt(l, i, K);
    var a, s, b := l[..i], l[i], l[i + 1..];
    ChosenAppend(a, [s] + b, K);
    ChosenAppend(a, [s] + b, K + {s});
    ChosenFront(s, b, K);
    ChosenFront(s, b, K + {s});
    ChosenSame(a, K, s);
    ChosenSame(b, K, s);
    ChosenNone(b, K);
  }

  lemma {:induction false} ClonesAppend(cl: map<Mount, Mount>, a: seq<Mount>, b: seq<Mount>)
    requires forall x :: x in a ==> x in cl
    requires forall x :: x in b ==> x in cl
    ensures (forall x :: x in a + b ==> x in cl) && Clones(cl, a + b) == Clones(cl, a) + Clones(cl, b)
  {
    if a == [] {
      assert a + b == b;
    } else {
      calc {
        Clones(cl, a + b);
        { assert (a + b)[1..] == a[1..] + b; }
        [cl[a[0]]] + Clones(cl, a[1..] + b);
        { ClonesAppend(cl, a[1..], b); }
        [cl[a[0]]] + (Clones(cl, a[1..]) + Clones(cl, b));
        { Reassociate([cl[a[0]]], Clones(cl, a[1..]), Clones(cl, b)); }
        Clones(cl, a) + Clones(cl, b);
      }
    }
  }

  lemma {:induction false} ClonesSame(cl: map<Mount, Mount>, l: seq<Mount>, s: Mount, q: Mount)
    requires (forall x :: x in l ==> x in cl) && s !in l
    ensures Clones(cl[s := q], l) == Clones(cl, l)
  {
    if l != [] { ClonesSame(cl, l[1..], s, q); }
  }

  // ---------------------------------------------------------------- the copy

  /** `cl` takes the mounts copied so far to their copies in `N`: same roots, mountpoints and flags, parents to parents. */
  ghost predicate Copies(S: set<Mount>, N: set<Mount>, mnt: Mount, cl: map<Mount, Mount>)
    reads S`parent, S`mountpoint, S`root, S`unbindable, N`parent, N`mountpoint, N`root, N`unbindable
  {
    && mnt in cl && S !! N && N == cl.Values
    && (forall x {:trigger x in cl} :: x in cl ==> x in S && cl[x] in N)
    && (forall x, y {:trigger cl[x], cl[y]} :: x in cl && y in cl && cl[x] == cl[y] ==> x == y)
    && (forall x {:trigger cl[x]} :: x in cl && x != mnt ==>
          && x.parent in cl && cl[x].parent == cl[x.parent]
          && cl[x].mountpoint == x.mountpoint && cl[x].root == x.root && cl[x].unbindable == x.unbindable)
  }

  ghost predicate ListOk(cl: map<Mount, Mount>, x: Mount, c: Mount)
    reads x`mounts, c`mounts
  {
    c.mounts == Clones(cl, Chosen(x.mounts, cl.Keys))
  }

  /** The children of a copy are the copies of the children that are copied, in the same order. */
  ghost predicate ListsCopied(S: set<Mount>, N: set<Mount>, cl: map<Mount, Mount>)
    requires forall x {:trigger x in cl} :: x in cl ==> x in S && cl[x] in N
    reads S`mounts, N`mounts
  {
    forall x {:trigger cl[x]} :: x in cl ==> ListOk(cl, x, cl[x])
  }

  /** The tree under `mnt` has been copied exactly: the mounts to which an open way leads, and no others. */
  ghost predicate IsCopy(S: set<Mount>, N: set<Mount>, mnt: Mount, how: How, cl: map<Mount, Mount>)
    reads S, N
  {
    && Copies(S, N, mnt, cl) && ListsCopied(S, N, cl)
    && forall x {:trigger x in cl} :: x in S ==> (x in cl <==> ToCopy(S, mnt, how, x))
  }

  datatype Grow = Grow(S: set<Mount>, N: set<Mount>, mnt: Mount, cl: map<Mount, Mount>, s: Mount)

  /** One more copy `q`, the last child of the copy of the parent of `s`. */
  twostate predicate Attached(g: Grow, new q: Mount)
    requires g.s in g.S && g.s.parent in g.cl
    reads g.S, g.N, q
  {
    && q !in g.N && q !in g.S && q.parent == g.cl[g.s.parent] && q.mounts == [] && q.mountpoint == g.s.mountpoint && q.root == g.s.root
    && q.unbindable == g.s.unbindable
    && (forall c {:trigger c.mounts} :: c in g.N ==>
          c.mounts == if c == g.cl[g.s.parent] then old(c.mounts) + [q] else old(c.mounts))
    && (forall c {:trigger c.parent} :: c in g.N ==> c.parent == old(c.parent))
    && (forall c {:trigger c.mountpoint} :: c in g.N ==> c.mountpoint == old(c.mountpoint))
    && (forall c {:trigger c.root} :: c in g.N ==> c.root == old(c.root))
    && (forall c {:trigger c.unbindable} :: c in g.N ==> c.unbindable == old(c.unbindable))
    && (forall c {:trigger c.mounts} :: c in g.S ==> c.mounts == old(c.mounts))
    && (forall c {:trigger c.parent} :: c in g.S ==> c.parent == old(c.parent))
    && (forall c {:trigger c.mountpoint} :: c in g.S ==> c.mountpoint == old(c.mountpoint))
    && (forall c {:trigger c.root} :: c in g.S ==> c.root == old(c.root))
    && (forall c {:trigger c.unbindable} :: c in g.S ==> c.unbindable == old(c.unbindable))
  }

  twostate lemma AttachCopies(g: Grow, new q: Mount)
    requires old(Copies(g.S, g.N, g.mnt, g.cl)) && g.s in g.S && g.s !in g.cl && g.s.parent in g.cl && Attached(g, q)
    ensures Copies(g.S, g.N + {q}, g.mnt, g.cl[g.s := q])
  {
    OneMore(g.cl, g.s, q);
  }

  lemma OneMore(cl: map<Mount, Mount>, s: Mount, q: Mount)
    requires s !in cl
    ensures cl[s := q].Values == cl.Values + {q}
  {
    var cl' := cl[s := q];
    forall c | c in cl.Values + {q} ensures c in cl'.Values {
      if c == q {
        assert cl'[s] == q;
      } else {
        var x: Mount :| x in cl && cl[x] == c;
        assert cl'[x] == c;
      }
    }
  }

  lemma ListGrows(cl: map<Mount, Mount>, l: seq<Mount>, i: nat, s: Mount, q: Mount)
    requires NoDup(l) && i < |l| && l[i] == s && s !in cl && forall j :: i < j < |l| ==> l[j] !in cl
    ensures Clones(cl[s := q], Chosen(l, cl.Keys + {s})) == Clones(cl, Chosen(l, cl.Keys)) + [q]
  {
    hide Chosen, NoDup;
    var K := cl.Keys;
    ChosenLast(l, i, K);
    ClonesSame(cl, Chosen(l, K), s, q);
    ClonesAppend(cl[s := q], Chosen(l, K), [s]);
  }

  lemma ListStays(cl: map<Mount, Mount>, l: seq<Mount>, s: Mount, q: Mount)
    requires s !in l && s !in cl
    ensures Clones(cl[s := q], Chosen(l, cl.Keys + {s})) == Clones(cl, Chosen(l, cl.Keys))
  {
    ChosenSame(l, cl.Keys, s);
    ClonesSame(cl, Chosen(l, cl.Keys), s, q);
  }

  lemma ListStarts(cl: map<Mount, Mount>, l: seq<Mount>, s: Mount, q: Mount)
    requires s !in l && forall x :: x in l ==> x !in cl
    ensures Clones(cl[s := q], Chosen(l, cl.Keys + {s})) == []
  {
    ChosenNone(l, cl.Keys + {s});
  }

  /** Where `s` stands among its siblings, and that nothing after it or below it has been copied. */
  ghost predicate NextInLine(g: Grow)
    reads g.S`parent, g.S`mounts, g.S`depth, g.s`parent, g.s`mounts, g.s.parent`mounts
  {
    && Tree(g.S) && g.s in g.S && g.s !in g.cl && g.s.parent in g.cl && g.s.parent in g.S && g.s in g.s.parent.mounts
    && (forall j {:trigger g.s.parent.mounts[j]} :: IndexOf(g.s.parent.mounts, g.s) < j < |g.s.parent.mounts| ==>
         g.s.parent.mounts[j] !in g.cl)
    && (forall c :: c in g.s.mounts ==> c !in g.cl)
  }

  twostate lemma AttachLists(g: Grow, new q: Mount)
    requires old(Copies(g.S, g.N, g.mnt, g.cl)) && old(ListsCopied(g.S, g.N, g.cl)) && old(NextInLine(g))
    requires g.s.parent in g.cl && Attached(g, q)
    requires forall x {:trigger x in g.cl[g.s := q]} :: x in g.cl[g.s := q] ==> x in g.S && g.cl[g.s := q][x] in g.N + {q}
    ensures ListsCopied(g.S, g.N + {q}, g.cl[g.s := q])
  {
    hide NoDup, Clones, Chosen;
    var cl' := g.cl[g.s := q];
    assert cl'.Keys == g.cl.Keys + {g.s};
    forall x {:trigger cl'[x]} | x in cl' ensures ListOk(cl', x, cl'[x]) {
      if x == g.s {
        ListStarts(g.cl, g.s.mounts, g.s, q);
      } else {
        assert old(ListOk(g.cl, x, g.cl[x]));
        if x == g.s.parent {
          ListGrows(g.cl, x.mounts, IndexOf(x.mounts, g.s), g.s, q);
        } else {
          assert g.s !in x.mounts;
          ListStays(g.cl, x.mounts, g.s, q);
        }
      }
    }
  }

  // ---------------------------------------------------------------- along the walk

  /** What has been met is copied or not to be copied, and what is copied has been met. */
  ghost predicate Progress(S: set<Mount>, top: int, N: set<Mount>, mnt: Mount, how: How, cl: map<Mount, Mount>,
                           pre: seq<Mount>, todo: seq<Mount>)
    reads S, N
  {
    && Whole(S, top) && mnt in S && pre + todo == Kids(S, top, mnt, 0)
    && Copies(S, N, mnt, cl) && ListsCopied(S, N, cl)
    && (forall x {:trigger x in cl} :: x in cl ==> (x == mnt || x in pre) && Kept(S, mnt, how, x))
    && (forall y {:trigger y in cl} :: y in S && y in pre ==> y in cl || !Kept(S, mnt, how, y))
  }

  /** The walk over the child `r` of `mnt` at place `k` stands at `s`. */
  ghost predicate Walking(S: set<Mount>, top: int, mnt: Mount, k: nat, s: Mount, left: seq<Mount>, todo: seq<Mount>)
    reads S`parent, S`mounts, S`depth
  {
    && Whole(S, top) && mnt in S && k < |mnt.mounts| && At(S, top, s, mnt.mounts[k], left)
    && todo == [s] + left + Kids(S, top, mnt, k + 1)
  }

  lemma Ahead(S: set<Mount>, top: int, mnt: Mount, k: nat, s: Mount, left: seq<Mount>, todo: seq<Mount>, j: nat)
    requires Walking(S, top, mnt, k, s, left, todo) && s.parent in S && s in s.parent.mounts
    requires IndexOf(s.parent.mounts, s) < j < |s.parent.mounts|
    ensures s.parent.mounts[j] in todo[1..]
  {
    hide Tree;
    var r := mnt.mounts[k];
    KidsStep(S, top, mnt, k);
    LaterSiblings(S, top, s.parent, IndexOf(s.parent.mounts, s) + 1, j);
    assert todo[1..] == left + Kids(S, top, mnt, k + 1);
    if s != r {
      assert s.parent.mounts[j] in Rest(S, top, s, r);
    }
  }

  lemma StopFacts(S: set<Mount>, top: int, mnt: Mount, k: nat, s: Mount, left: seq<Mount>, todo: seq<Mount>)
    requires Walking(S, top, mnt, k, s, left, todo)
    ensures s in S && s.parent in S && s in s.parent.mounts && s != mnt && s.parent != s && Inside(S, s, mnt) && Inside(S, s.parent, mnt)
  {
    KidsStep(S, top, mnt, k);
    var r := mnt.mounts[k];
    assert Inside(S, r, mnt);
    InsideTrans(S, s, r, mnt);
    AboveRoot(S, s, r);
  }

  lemma MetOnce(S: set<Mount>, top: int, mnt: Mount, pre: seq<Mount>, todo: seq<Mount>, y: Mount)
    requires Whole(S, top) && mnt in S && pre + todo == Kids(S, top, mnt, 0) && y in todo
    ensures y !in pre && y != mnt && y in S
  {
    hide NoDup, Inside;
    WalkMeetsAllOnce(S, top, mnt);
    assert y in pre + todo;
    if y in pre { DisjointHalves(pre, todo, y); }
  }

  /** A kept mount that the walk has come to can be copied next. */
  lemma CanCopy(S: set<Mount>, top: int, N: set<Mount>, mnt: Mount, how: How, cl: map<Mount, Mount>, pre: seq<Mount>,
                k: nat, s: Mount, left: seq<Mount>, todo: seq<Mount>)
    requires Walking(S, top, mnt, k, s, left, todo) && Progress(S, top, N, mnt, how, cl, pre, todo) && s.parent in cl
    ensures NextInLine(Grow(S, N, mnt, cl, s))
  {
    hide Tree, ListsCopied, Kept, NoDup;
    StopFacts(S, top, mnt, k, s, left, todo);
    forall y | y in todo ensures y !in cl { MetOnce(S, top, mnt, pre, todo, y); }
    forall j {:trigger s.parent.mounts[j]} | IndexOf(s.parent.mounts, s) < j < |s.parent.mounts| ensures s.parent.mounts[j] !in cl {
      Ahead(S, top, mnt, k, s, left, todo, j);
    }
    forall c | c in s.mounts ensures c !in cl {
      NoCopyBelow(S, top, N, mnt, cl, s, c);
    }
  }

  lemma NoCopyBelow(S: set<Mount>, top: int, N: set<Mount>, mnt: Mount, cl: map<Mount, Mount>, s: Mount, c: Mount)
    requires Whole(S, top) && Copies(S, N, mnt, cl) && s in S && mnt in S && s !in cl && Inside(S, s, mnt) && c in s.mounts
    ensures c !in cl
  {
    assert c.parent == s && c in S && c != s;
    AboveRoot(S, s, mnt);
  }

  /** Everything below a mount that is not kept may be passed over. */
  lemma PassOver(S: set<Mount>, top: int, N: set<Mount>, mnt: Mount, how: How, cl: map<Mount, Mount>, pre: seq<Mount>,
                 s: Mount, rest: seq<Mount>)
    requires Whole(S, top) && mnt in S && s in S && Inside(S, s, mnt) && !Kept(S, mnt, how, s)
    requires Progress(S, top, N, mnt, how, cl, pre, [s] + Kids(S, top, s, 0) + rest)
    ensures Progress(S, top, N, mnt, how, cl, pre + ([s] + Kids(S, top, s, 0)), rest)
  {
    hide Tree, Copies, ListsCopied, Kept, NoDup, Kids;
    var skipped := [s] + Kids(S, top, s, 0);
    assert pre + skipped + rest == pre + (skipped + rest);
    WalkMeetsAllOnce(S, top, s);
    forall y | y in S && y in skipped ensures !Kept(S, mnt, how, y) {
      NoneKeptBelow(S, mnt, how, s, y);
    }
  }

  datatype Stage = Stage(g: Grow, how: How, top: int, pre: seq<Mount>, todo: seq<Mount>)

  twostate lemma StepCopied(w: Stage, new q: Mount)
    requires old(Progress(w.g.S, w.top, w.g.N, w.g.mnt, w.how, w.g.cl, w.pre, w.todo)) && w.todo != [] && w.todo[0] == w.g.s
    requires old(NextInLine(w.g)) && w.g.s.parent in w.g.cl && Attached(w.g, q)
    requires Whole(w.g.S, w.top) && w.g.mnt in w.g.S && Kids(w.g.S, w.top, w.g.mnt, 0) == old(Kids(w.g.S, w.top, w.g.mnt, 0))
    requires forall x {:trigger Kept(w.g.S, w.g.mnt, w.how, x)} :: x in w.g.S ==>
      Kept(w.g.S, w.g.mnt, w.how, x) == old(Kept(w.g.S, w.g.mnt, w.how, x))
    requires w.g.s in w.g.S && Kept(w.g.S, w.g.mnt, w.how, w.g.s)
    ensures Progress(w.g.S, w.top, w.g.N + {q}, w.g.mnt, w.how, w.g.cl[w.g.s := q], w.pre + [w.g.s], w.todo[1..])
  {
    hide Tree, Kept, Kids, Copies, ListsCopied, NoDup;
    var g := w.g;
    AttachFacts(g);
    AttachCopies(g, q);
    CopiesIn(g.S, g.N + {q}, g.mnt, g.cl[g.s := q]);
    AttachLists(g, q);
    assert w.pre + [g.s] + w.todo[1..] == w.pre + w.todo;
  }

  twostate lemma AttachFacts(g: Grow)
    requires old(NextInLine(g)) && old(Copies(g.S, g.N, g.mnt, g.cl))
    ensures g.s in g.S && g.s !in g.cl && forall x {:trigger x in g.cl} :: x in g.cl ==> x in g.S
  {
  }

  lemma CopiesIn(S: set<Mount>, N: set<Mount>, mnt: Mount, cl: map<Mount, Mount>)
    requires Copies(S, N, mnt, cl)
    ensures forall x {:trigger x in cl} :: x in cl ==> x in S && cl[x] in N
  {
  }

  /** clone_mnt, as far as the tree goes, and attach_mnt */
  method CopyOne(ghost g: Grow, ghost top: int, ghost how: How, ghost pre: seq<Mount>, ghost todo: seq<Mount>, s: Mount,
                 parent: Mount)
    returns (q: Mount)
    requires g.s == s && Progress(g.S, top, g.N, g.mnt, how, g.cl, pre, todo) && todo != [] && todo[0] == s
    requires NextInLine(g) && s.parent in g.cl && parent == g.cl[s.parent] && Kept(g.S, g.mnt, how, s)
    modifies parent`mounts
    ensures fresh(q) && Progress(g.S, top, g.N + {q}, g.mnt, how, g.cl[s := q], pre + [s], todo[1..])
  {
    hide Tree, Kept, Kids, ListsCopied, NoDup;
    assert parent in g.N && parent !in g.S;
    q := new Mount(s.root);
    q.unbindable := s.unbindable;
    q.parent, q.mountpoint := parent, s.mountpoint;
    parent.mounts := parent.mounts + [q];
    assert Attached(g, q);
    StepCopied(Stage(g, how, top, pre, todo), q);
  }

  /** The paired climb: `q` stays the copy of `p` until `p` is where the next mount hangs. */
  method ClimbBoth(ghost S: set<Mount>, ghost N: set<Mount>, ghost mnt: Mount, ghost cl: map<Mount, Mount>, from: Mount,
                   copy: Mount, to: Mount)
    returns (q: Mount)
    requires Tree(S) && Copies(S, N, mnt, cl) && mnt in S && to in S && Inside(S, to, mnt)
    requires from in cl && from in S && copy == cl[from] && Inside(S, from, to)
    ensures to in cl && q == cl[to]
  {
    hide Tree;
    var p := from;
    q := copy;
    while p != to
      invariant p in cl && p in S && q == cl[p] && Inside(S, p, to)
      decreases p.depth
    {
      ClimbStep(S, mnt, p, to);
      p := p.parent;
      q := q.parent;
    }
  }

  lemma ClimbStep(S: set<Mount>, mnt: Mount, p: Mount, to: Mount)
    requires Tree(S) && p in S && mnt in S && to in S && Inside(S, p, to) && p != to && Inside(S, to, mnt)
    ensures p != mnt && p.parent in S && Inside(S, p.parent, to) && 0 <= p.parent.depth < p.depth
  {
    assert p.parent.depth < p.depth;
    AboveRoot(S, p.parent, to);
    AboveRoot(S, to, mnt);
  }

  lemma SkippedOf(S: set<Mount>, top: int, mnt: Mount, k: nat, s: Mount, left: seq<Mount>, todo: seq<Mount>)
    requires Walking(S, top, mnt, k, s, left, todo)
    ensures var rest := left[|Kids(S, top, s, 0)|..];
      && |Kids(S, top, s, 0)| <= |left| && Past(S, top, s, mnt.mounts[k], rest)
      && todo == [s] + Kids(S, top, s, 0) + (rest + Kids(S, top, mnt, k + 1))
  {
    hide Tree;
  }

  /** After a mount has been passed over, the next one hangs where its parent hangs or above. */
  lemma NextAfterSkip(S: set<Mount>, top: int, s: Mount, r: Mount, rest: seq<Mount>, p: Mount)
    requires Past(S, top, s, r, rest) && rest != [] && p in S && s.parent in S && Inside(S, p, s.parent)
    ensures rest[0] in S && Inside(S, p, rest[0].parent)
  {
    RestParent(S, top, s, r);
    InsideTrans(S, p, s.parent, rest[0].parent);
  }

  /** The copy so far, and the last mount copied with its copy. */
  ghost predicate Going(S: set<Mount>, top: int, N: set<Mount>, mnt: Mount, how: How, cl: map<Mount, Mount>,
                        pre: seq<Mount>, todo: seq<Mount>, p: Mount, q: Mount)
    reads S, N
  {
    Progress(S, top, N, mnt, how, cl, pre, todo) && p in cl && p in S && q == cl[p]
  }

  lemma NextStop(S: set<Mount>, top: int, mnt: Mount, k: nat, s: Mount, left: seq<Mount>, m: Mount, todo: seq<Mount>)
    requires Whole(S, top) && mnt in S && k < |mnt.mounts| && left != [] && left[0] == m && At(S, top, m, mnt.mounts[k], left[1..])
    requires todo == left + Kids(S, top, mnt, k + 1)
    ensures Walking(S, top, mnt, k, m, left[1..], todo)
  {
    hide Tree;
    assert left == [m] + left[1..];
  }

  lemma Parts(S: set<Mount>, top: int, mnt: Mount, k: nat, s: Mount, left: seq<Mount>, todo: seq<Mount>)
    requires Walking(S, top, mnt, k, s, left, todo)
    ensures todo != [] && todo[0] == s && todo[1..] == left + Kids(S, top, mnt, k + 1)
    ensures At(S, top, s, mnt.mounts[k], left) && Whole(S, top) && mnt in S && k < |mnt.mounts|
  {
    hide Tree;
  }

  lemma KeptNow(S: set<Mount>, top: int, N: set<Mount>, mnt: Mount, how: How, cl: map<Mount, Mount>, pre: seq<Mount>,
                todo: seq<Mount>, s: Mount)
    requires Progress(S, top, N, mnt, how, cl, pre, todo) && s in S && s.parent in S && s.parent != s && s != mnt
    ensures s.parent in cl && !Pruned(s, how) && (s.parent == mnt ==> s.mountpoint in how.below) ==> Kept(S, mnt, how, s)
    ensures Pruned(s, how) || (s.parent == mnt && s.mountpoint !in how.below) ==> !Kept(S, mnt, how, s)
  {
    hide Copies, ListsCopied, Kids;
  }

  /** The loop of copy_tree at a stop `s` of its walk over the child of `mnt` at place `k`, or at the end of that walk. */
  ghost predicate Stop(S: set<Mount>, top: int, N: set<Mount>, mnt: Mount, how: How, cl: map<Mount, Mount>,
                       pre: seq<Mount>, todo: seq<Mount>,
                       p: Mount, q: Mount, k: nat, s: Mount?, left: seq<Mount>)
    reads S, N
  {
    && Tree(S) && Whole(S, top) && mnt in S && k < |mnt.mounts| && S !! N
    && Going(S, top, N, mnt, how, cl, pre, todo, p, q) && Inside(S, p, mnt)
    && (s == null ==> todo == Kids(S, top, mnt, k + 1))
    && (s != null ==> Walking(S, top, mnt, k, s, left, todo) && s in S && s.parent in S && Inside(S, p, s.parent)
                      && (s.parent == mnt ==> s == mnt.mounts[k]))
  }

  /** Everything Stop asks of the next stop of the walk. */
  lemma Arrive(S: set<Mount>, top: int, mnt: Mount, k: nat, m: Mount, left: seq<Mount>, next: Mount, todo: seq<Mount>)
    requires Whole(S, top) && mnt in S && k < |mnt.mounts| && At(S, top, m, mnt.mounts[k], left)
    requires left != [] && left[0] == next && At(S, top, next, mnt.mounts[k], left[1..]) && todo == left + Kids(S, top, mnt, k + 1)
    ensures Walking(S, top, mnt, k, next, left[1..], todo) && next in S && next.parent in S && next.parent != mnt
  {
    hide Tree, Whole, At, Kids;
    NextStop(S, top, mnt, k, m, left, next, todo);
    NotTheTop(S, top, mnt, k, m, left);
    StopFacts(S, top, mnt, k, next, left[1..], todo);
  }

  /** skip_mnt_tree and next_mnt at a mount that is not copied */
  method SkipStop(ghost S: set<Mount>, ghost top: int, ghost N: set<Mount>, mnt: Mount, how: How, ghost cl: map<Mount, Mount>,
                  ghost pre: seq<Mount>, ghost todo: seq<Mount>, ghost p: Mount, ghost q: Mount, k: nat, s: Mount, ghost left: seq<Mount>)
    returns (next: Mount?, ghost pre': seq<Mount>, ghost todo': seq<Mount>, ghost left': seq<Mount>)
    requires Stop(S, top, N, mnt, how, cl, pre, todo, p, q, k, s, left) && Pruned(s, how)
    ensures Stop(S, top, N, mnt, how, cl, pre', todo', p, q, k, next, left')
    ensures next != null ==> |left'| < |left|
  {
    hide Tree, Whole, Progress, Walking, At, Past, Kept, Kids, Inside, NoDup;
    StopFacts(S, top, mnt, k, s, left, todo);
    KeptNow(S, top, N, mnt, how, cl, pre, todo, s);
    SkippedOf(S, top, mnt, k, s, left, todo);
    ghost var rest := left[|Kids(S, top, s, 0)|..];
    todo', pre', left' := rest + Kids(S, top, mnt, k + 1), pre + ([s] + Kids(S, top, s, 0)), [];
    PassOver(S, top, N, mnt, how, cl, pre, s, todo');
    var last := SkipMntTree(S, top, s, mnt.mounts[k], rest);
    next := NextMnt(S, top, last, mnt.mounts[k], rest);
    if next != null {
      NextAfterSkip(S, top, s, mnt.mounts[k], rest, p);
      Arrive(S, top, mnt, k, last, rest, next, todo');
      left' := rest[1..];
    }
  }

  /** next_mnt after a copy */
  method NextFrom(ghost S: set<Mount>, ghost top: int, mnt: Mount, k: nat, s: Mount, ghost left: seq<Mount>, ghost todo: seq<Mount>)
    returns (next: Mount?, ghost left': seq<Mount>)
    requires Tree(S) && Whole(S, top) && mnt in S && k < |mnt.mounts| && At(S, top, s, mnt.mounts[k], left) && s in S
    requires todo == left + Kids(S, top, mnt, k + 1)
    ensures next == null ==> todo == Kids(S, top, mnt, k + 1)
    ensures next != null ==> |left'| < |left| && Walking(S, top, mnt, k, next, left', todo)
    ensures next != null ==> next in S && next.parent in S && Inside(S, s, next.parent) && next.parent != mnt
  {
    hide Tree, Whole, Walking, At, Kids, Inside;
    next := NextMnt(S, top, s, mnt.mounts[k], left);
    left' := [];
    if next != null {
      NextParent(S, top, s, mnt.mounts[k], left);
      Arrive(S, top, mnt, k, s, left, next, todo);
      left' := left[1..];
    }
  }

  /** The climb, the copy and next_mnt at a mount that is copied */
  method CopyStop(ghost S: set<Mount>, ghost top: int, ghost N: set<Mount>, mnt: Mount, how: How, ghost cl: map<Mount, Mount>,
                  ghost pre: seq<Mount>, ghost todo: seq<Mount>, p: Mount, q: Mount, k: nat, s: Mount, ghost left: seq<Mount>)
    returns (copy: Mount, next: Mount?, ghost left': seq<Mount>)
    requires Stop(S, top, N, mnt, how, cl, pre, todo, p, q, k, s, left) && !Pruned(s, how) && mnt.mounts[k].mountpoint in how.below
    modifies N`mounts
    ensures fresh(copy) && todo != []
    ensures Stop(S, top, N + {copy}, mnt, how, cl[s := copy], pre + [s], todo[1..], s, copy, k, next, left')
    ensures next != null ==> |left'| < |left|
  {
    hide Tree, Whole, Progress, Walking, At, Past, Kept, Kids, Inside, NoDup, Copies, NextInLine;
    StopFacts(S, top, mnt, k, s, left, todo);
    Parts(S, top, mnt, k, s, left, todo);
    WorkFacts(S, top, N, mnt, how, cl, pre, todo);
    var parent := ClimbBoth(S, N, mnt, cl, p, q, s.parent);
    KeptNow(S, top, N, mnt, how, cl, pre, todo, s);
    CanCopy(S, top, N, mnt, how, cl, pre, k, s, left, todo);
    CopiesIn(S, N, mnt, cl);
    copy := CopyOne(Grow(S, N, mnt, cl, s), top, how, pre, todo, s, parent);
    assert Tree(S) && Whole(S, top) && Inside(S, s, mnt);
    next, left' := NextFrom(S, top, mnt, k, s, left, todo[1..]);
  }

  /** What a whole copy copies. */
  ghost function KeptOf(S: set<Mount>, mnt: Mount, how: How): set<Mount>
    reads S`parent, S`unbindable, S`root, S`mountpoint
  {
    set m | m in S && ToCopy(S, mnt, how, m)
  }

  /** With a mount everything above it has been copied. */
  lemma CopiedAbove(S: set<Mount>, N: set<Mount>, mnt: Mount, cl: map<Mount, Mount>, p: Mount, to: Mount)
    requires Tree(S) && Copies(S, N, mnt, cl) && mnt in S && p in S && to in S && p in cl && Inside(S, p, to) && Inside(S, to, mnt)
    ensures to in cl
    decreases p.depth
  {
    hide Tree, Inside;
    if p != to {
      ClimbStep(S, mnt, p, to);
      CopiedAbove(S, N, mnt, cl, p.parent, to);
    }
  }

  /** A stop that is not pruned is one that is kept, and has no copy yet. */
  lemma NewStop(S: set<Mount>, top: int, N: set<Mount>, mnt: Mount, how: How, cl: map<Mount, Mount>, pre: seq<Mount>, todo: seq<Mount>,
                p: Mount, q: Mount, k: nat, s: Mount, left: seq<Mount>)
    requires Stop(S, top, N, mnt, how, cl, pre, todo, p, q, k, s, left) && !Pruned(s, how) && mnt.mounts[k].mountpoint in how.below
    ensures s in S && Kept(S, mnt, how, s) && s !in cl && |cl| < |KeptOf(S, mnt, how)|
  {
    hide Tree, Whole, Walking, At, Kept, Kids, Inside, Copies, ListsCopied, KeptOf;
    StopFacts(S, top, mnt, k, s, left, todo);
    Parts(S, top, mnt, k, s, left, todo);
    CopiedAbove(S, N, mnt, cl, p, s.parent);
    KeptNow(S, top, N, mnt, how, cl, pre, todo, s);
    MetOnce(S, top, mnt, pre, todo, s);
    CopiesIn(S, N, mnt, cl);
    OneMoreKept(S, mnt, how, cl.Keys, s);
  }

  lemma OneMoreKept(S: set<Mount>, mnt: Mount, how: How, copied: set<Mount>, s: Mount)
    requires Tree(S) && mnt in S && s in S && Kept(S, mnt, how, s) && s !in copied
    requires forall x {:trigger x in copied} :: x in copied ==> x in S && Kept(S, mnt, how, x)
    ensures |copied| < |KeptOf(S, mnt, how)|
  {
    hide Tree, Kept, ToCopy;
    var all := KeptOf(S, mnt, how);
    forall x | x in S && Kept(S, mnt, how, x) ensures x in all { KeptExact(S, mnt, how, x); }
    assert all == copied + {s} + (all - copied - {s});
  }

  lemma AllKept(S: set<Mount>, N: set<Mount>, mnt: Mount, how: How, cl: map<Mount, Mount>)
    requires IsCopy(S, N, mnt, how, cl)
    ensures |cl| == |KeptOf(S, mnt, how)|
  {
    hide ToCopy, ListsCopied;
    assert cl.Keys == KeptOf(S, mnt, how);
  }

  /** The walk over one child of `mnt`; `budget` mounts can still be allocated. */
  method CopyChild(ghost S: set<Mount>, ghost top: int, ghost N0: set<Mount>, mnt: Mount, k: nat, how: How,
                   ghost cl0: map<Mount, Mount>, ghost pre0: seq<Mount>, p0: Mount, q0: Mount, budget: nat)
    returns (ok: bool, p: Mount, q: Mount, ghost N: set<Mount>, ghost cl: map<Mount, Mount>, ghost pre: seq<Mount>, budget': nat)
    requires mnt in S && k < |mnt.mounts| && Whole(S, top) && Tree(S) && S !! N0
    requires Going(S, top, N0, mnt, how, cl0, pre0, Kids(S, top, mnt, k), p0, q0) && mnt.mounts[k].mountpoint in how.below
    requires Inside(S, p0, mnt)
    modifies N0`mounts
    ensures N0 <= N && fresh(N - N0) && S !! N && mnt in cl && mnt in cl0 && cl[mnt] == cl0[mnt]
    ensures ok ==> Going(S, top, N, mnt, how, cl, pre, Kids(S, top, mnt, k + 1), p, q) && p in S && Inside(S, p, mnt)
    ensures if ok then budget' + |cl| == budget + |cl0| else budget + |cl0| < |KeptOf(S, mnt, how)|
  {
    hide Tree, Whole, Progress, Walking, Kids, Inside, KeptOf, Kept;
    N, cl, pre, p, q, ok, budget' := N0, cl0, pre0, p0, q0, true, budget;
    ghost var todo := Kids(S, top, mnt, k);
    ghost var left := StartChild(S, top, mnt, k, p);
    WorkFacts(S, top, N, mnt, how, cl, pre, todo);
    var s: Mount? := mnt.mounts[k];
    while s != null
      invariant N0 <= N && fresh(N - N0) && mnt in cl && cl[mnt] == cl0[mnt] && k < |mnt.mounts| && mnt.mounts[k].mountpoint in how.below
      invariant Stop(S, top, N, mnt, how, cl, pre, todo, p, q, k, s, left) && budget' + |cl| == budget + |cl0|
      decreases if s == null then 0 else |left| + 1
    {
      if (!how.unbindable && s.unbindable) || (!how.nsFiles && s.root in how.ns) {
        s, pre, todo, left := SkipStop(S, top, N, mnt, how, cl, pre, todo, p, q, k, s, left);
      } else {
        NewStop(S, top, N, mnt, how, cl, pre, todo, p, q, k, s, left);
        if budget' == 0 { ok := false; return; }
        budget' := budget' - 1;
        StopFacts(S, top, mnt, k, s, left, todo);
        var copy, next;
        copy, next, left := CopyStop(S, top, N, mnt, how, cl, pre, todo, p, q, k, s, left);
        N, cl, pre, todo := N + {copy}, cl[s := copy], pre + [s], todo[1..];
        p, q, s := s, copy, next;
      }
    }
  }

  lemma StartChild(S: set<Mount>, top: int, mnt: Mount, k: nat, p: Mount) returns (left: seq<Mount>)
    requires Whole(S, top) && mnt in S && k < |mnt.mounts| && p in S && Inside(S, p, mnt)
    ensures mnt.mounts[k] in S && mnt.mounts[k].parent == mnt && Inside(S, p, mnt.mounts[k].parent)
    ensures Walking(S, top, mnt, k, mnt.mounts[k], left, Kids(S, top, mnt, k))
  {
    KidsStep(S, top, mnt, k);
    left := Kids(S, top, mnt.mounts[k], 0);
    assert left + [] == left;
  }

  /** Only the child itself hangs on `mnt`. */
  lemma NotTheTop(S: set<Mount>, top: int, mnt: Mount, k: nat, m: Mount, left: seq<Mount>)
    requires Whole(S, top) && mnt in S && k < |mnt.mounts| && At(S, top, m, mnt.mounts[k], left) && left != []
    ensures left[0] in S && left[0].parent != mnt
  {
    KidsStep(S, top, mnt, k);
    NextInside(S, top, m, mnt.mounts[k], left);
    AboveRoot(S, left[0].parent, mnt.mounts[k]);
  }

  lemma WorkFacts(S: set<Mount>, top: int, N: set<Mount>, mnt: Mount, how: How, cl: map<Mount, Mount>, pre: seq<Mount>, todo: seq<Mount>)
    requires Progress(S, top, N, mnt, how, cl, pre, todo)
    ensures Tree(S) && Copies(S, N, mnt, cl)
  {
  }

  lemma StartCopy(S: set<Mount>, top: int, mnt: Mount, how: How, res: Mount)
    requires Whole(S, top) && Tree(S) && mnt in S && res !in S && res.mounts == []
    ensures Going(S, top, {res}, mnt, how, map[mnt := res], [], Kids(S, top, mnt, 0), mnt, res) && Inside(S, mnt, mnt)
  {
    hide Kids, Tree, Whole, Inside;
    var cl := map[mnt := res];
    assert Copies(S, {res}, mnt, cl) by { assert cl[mnt] == res; assert cl.Values == {res}; }
    assert ListOk(cl, mnt, res) by {
      NotOwnChild(S, mnt);
      ChosenNone(mnt.mounts, cl.Keys);
    }
    RootIsKept(S, mnt, how);
  }

  lemma RootIsKept(S: set<Mount>, mnt: Mount, how: How)
    requires Tree(S) && mnt in S
    ensures Kept(S, mnt, how, mnt) && Inside(S, mnt, mnt)
  {
  }

  lemma NotOwnChild(S: set<Mount>, mnt: Mount)
    requires Tree(S) && mnt in S
    ensures mnt !in mnt.mounts
  {
  }

  /** A child outside the dentry, and everything below it, is left out. */
  lemma LeaveOut(S: set<Mount>, top: int, N: set<Mount>, mnt: Mount, how: How, cl: map<Mount, Mount>, pre: seq<Mount>,
                 p: Mount, q: Mount, k: nat)
    requires Whole(S, top) && Tree(S) && mnt in S && k < |mnt.mounts| && mnt.mounts[k].mountpoint !in how.below
    requires Going(S, top, N, mnt, how, cl, pre, Kids(S, top, mnt, k), p, q)
    ensures mnt.mounts[k] in S
    ensures var met := [mnt.mounts[k]] + Kids(S, top, mnt.mounts[k], 0);
      Going(S, top, N, mnt, how, cl, pre + met, Kids(S, top, mnt, k + 1), p, q)
  {
    hide Tree, Whole, Progress, Kids, Kept;
    var r := mnt.mounts[k];
    KidsStep(S, top, mnt, k);
    ChildInside(S, top, mnt, k);
    KeptNow(S, top, N, mnt, how, cl, pre, Kids(S, top, mnt, k), r);
    PassOver(S, top, N, mnt, how, cl, pre, r, Kids(S, top, mnt, k + 1));
  }

  lemma ChildInside(S: set<Mount>, top: int, mnt: Mount, k: nat)
    requires Whole(S, top) && Tree(S) && mnt in S && k < |mnt.mounts|
    ensures mnt.mounts[k] in S && Inside(S, mnt.mounts[k], mnt)
  {
    KidsStep(S, top, mnt, k);
  }

  lemma CopiedIffKept(S: set<Mount>, top: int, N: set<Mount>, mnt: Mount, how: How, cl: map<Mount, Mount>, pre: seq<Mount>, x: Mount)
    requires Tree(S) && Progress(S, top, N, mnt, how, cl, pre, []) && x in S
    ensures x in cl <==> Kept(S, mnt, how, x)
  {
    hide Tree, Whole, Copies, ListsCopied, Kids, NoDup, Inside, Kept;
    assert pre + [] == pre;
    WalkMeetsAllOnce(S, top, mnt);
    WorkFacts(S, top, N, mnt, how, cl, pre, []);
    MntCopied(S, N, mnt, cl);
    if Kept(S, mnt, how, x) && x != mnt {
      KeptInside(S, mnt, how, x);
      assert x in pre;
    }
  }

  lemma AllCopied(S: set<Mount>, top: int, N: set<Mount>, mnt: Mount, how: How, cl: map<Mount, Mount>, pre: seq<Mount>)
    requires Tree(S) && mnt in S && Progress(S, top, N, mnt, how, cl, pre, [])
    ensures IsCopy(S, N, mnt, how, cl)
  {
    hide Tree, Copies, ListsCopied, Kept, Progress, ToCopy;
    forall x {:trigger x in cl} | x in S ensures x in cl <==> ToCopy(S, mnt, how, x) {
      CopiedIffKept(S, top, N, mnt, how, cl, pre, x);
      KeptExact(S, mnt, how, x);
    }
    WorkFacts(S, top, N, mnt, how, cl, pre, []);
    CopiesIn(S, N, mnt, cl);
    ListsFacts(S, top, N, mnt, how, cl, pre);
  }

  lemma ListsFacts(S: set<Mount>, top: int, N: set<Mount>, mnt: Mount, how: How, cl: map<Mount, Mount>, pre: seq<Mount>)
    requires Progress(S, top, N, mnt, how, cl, pre, [])
    ensures (forall x {:trigger x in cl} :: x in cl ==> x in S && cl[x] in N) && ListsCopied(S, N, cl)
  {
    hide Tree, Whole, Kids, Kept, ListsCopied;
  }

  lemma MntCopied(S: set<Mount>, N: set<Mount>, mnt: Mount, cl: map<Mount, Mount>)
    requires Copies(S, N, mnt, cl)
    ensures mnt in cl
  {
  }

  lemma FinishCopy(S: set<Mount>, top: int, N: set<Mount>, mnt: Mount, how: How, cl: map<Mount, Mount>, pre: seq<Mount>, p: Mount, q: Mount)
    requires Tree(S) && mnt in S && Going(S, top, N, mnt, how, cl, pre, [], p, q)
    ensures IsCopy(S, N, mnt, how, cl)
  {
    AllCopied(S, top, N, mnt, how, cl, pre);
  }

  lemma RootKept(S: set<Mount>, mnt: Mount, how: How)
    requires Tree(S) && mnt in S
    ensures |KeptOf(S, mnt, how)| > 0
  {
    KeptExact(S, mnt, how, mnt);
    assert mnt in KeptOf(S, mnt, how);
  }

  /** The loop of copy_tree over the children of `mnt`, whose copy is `res`. */
  method CopyChildren(ghost S: set<Mount>, ghost top: int, mnt: Mount, how: How, res: Mount, budget: nat)
    returns (ok: bool, ghost N: set<Mount>, ghost cl: map<Mount, Mount>)
    requires Whole(S, top) && Tree(S) && mnt in S && res !in S && res.mounts == []
    modifies res`mounts
    ensures res in N && fresh(N - {res}) && mnt in cl && cl[mnt] == res
    ensures ok ==> IsCopy(S, N, mnt, how, cl)
    ensures ok <==> 1 + budget >= |KeptOf(S, mnt, how)|
  {
    hide Tree, Whole, Going, Kids, Inside, Kept, IsCopy, KeptOf;
    N, cl := {res}, map[mnt := res];
    ghost var pre := [];
    var p, q := mnt, res;
    var left: nat, k: nat := budget, 0;
    StartCopy(S, top, mnt, how, res);
    KidsStep(S, top, mnt, 0);
    while k < |mnt.mounts|
      invariant k <= |mnt.mounts| && Tree(S) && Whole(S, top) && fresh(N - {res}) && S !! N && mnt in cl && cl[mnt] == res && res in N
      invariant Going(S, top, N, mnt, how, cl, pre, Kids(S, top, mnt, k), p, q) && p in S && Inside(S, p, mnt)
      invariant left + |cl| == 1 + budget
    {
      if mnt.mounts[k].mountpoint !in how.below {
        LeaveOut(S, top, N, mnt, how, cl, pre, p, q, k);
        pre := pre + ([mnt.mounts[k]] + Kids(S, top, mnt.mounts[k], 0));
      } else {
        ok, p, q, N, cl, pre, left := CopyChild(S, top, N, mnt, k, how, cl, pre, p, q, left);
        if !ok { return; }
      }
      k := k + 1;
    }
    KidsStep(S, top, mnt, k);
    FinishCopy(S, top, N, mnt, how, cl, pre, p, q);
    AllKept(S, N, mnt, how, cl);
    ok := true;
  }

  /** What is left out is not in the copy. */
  lemma NothingPruned(S: set<Mount>, N: set<Mount>, mnt: Mount, how: How, cl: map<Mount, Mount>)
    requires IsCopy(S, N, mnt, how, cl)
    ensures mnt in cl && forall c {:trigger c in N} :: c in N && c != cl[mnt] ==>
      (!how.unbindable ==> !c.unbindable) && (!how.nsFiles ==> c.root !in how.ns)
  {
    hide ListsCopied;
    forall c {:trigger c in N} | c in N && c != cl[mnt]
      ensures (!how.unbindable ==> !c.unbindable) && (!how.nsFiles ==> c.root !in how.ns)
    {
      var x: Mount :| x in cl && cl[x] == c;
      assert x in S && ToCopy(S, mnt, how, x);
      var way: seq<Mount> :| Within(way, S) && |way| > 0 && OpenWay(S, mnt, how, way) && way[|way| - 1] == x;
    }
  }

  /** copy_tree: the copy is the source tree, pruned, or there is none because the root may not be copied or memory runs out. */
  method CopyTree(ghost S: set<Mount>, ghost top: int, mnt: Mount, dentry: Dentry, how: How, budget: nat)
    returns (res: Mount?, ghost N: set<Mount>, ghost cl: map<Mount, Mount>)
    requires Whole(S, top) && Tree(S) && mnt in S
    ensures res == null <==> (!how.unbindable && mnt.unbindable) || (!how.nsFiles && dentry in how.ns) || budget < |KeptOf(S, mnt, how)|
    ensures res != null ==> IsCopy(S, N, mnt, how, cl) && fresh(N) && mnt in cl && res == cl[mnt]
    ensures res != null ==> forall c {:trigger c in N} :: c in N && c != res ==>
      (!how.unbindable ==> !c.unbindable) && (!how.nsFiles ==> c.root !in how.ns)
    ensures res != null ==> res.root == dentry && res.mountpoint == mnt.mountpoint && res.parent == res && res.unbindable == mnt.unbindable
  {
    hide Tree, Whole, Kids, Kept, IsCopy, KeptOf;
    N, cl := {}, map[];
    if !how.unbindable && mnt.unbindable { return null, N, cl; }
    if !how.nsFiles && dentry in how.ns { return null, N, cl; }
    RootKept(S, mnt, how);
    if budget == 0 { return null, N, cl; }
    var copy := new Mount(dentry);
    copy.mountpoint, copy.unbindable := mnt.mountpoint, mnt.unbindable;
    var ok;
    ok, N, cl := CopyChildren(S, top, mnt, how, copy, budget - 1);
    if ok { NothingPruned(S, N, mnt, how, cl); }
    res := if ok then copy else null;
  }
}
