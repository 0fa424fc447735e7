/** The dentry cache: parent pointers and child lists changed in place by allocation, rename, exchange and splicing. */
module Dcache {
  import opened Lists
  import opened DirTree

  datatype Inode = NoInode | FileInode(nr: int) | DirInode(nr: int)

  class Dentry {
    var parent: Dentry        // d_parent, itself for a root
    var name: string          // d_name
    var inode: Inode          // d_inode, NoInode for a negative dentry
    var subdirs: seq<Dentry>  // d_subdirs, threaded through d_child
    var hashed: bool

    constructor (name: string)
      ensures parent == this && this.name == name && inode == NoInode && subdirs == [] && !hashed
    {
      parent, this.name, inode, subdirs, hashed := this, name, NoInode, [], false;
    }
  }

  ghost function Up(S: set<Dentry>): map<Dentry, Dentry>
    reads S`parent
  {
    map d | d in S :: d.parent
  }

  ghost predicate ParentsIn(S: set<Dentry>)
    reads S`parent
  {
    forall d {:trigger d.parent} :: d in S ==> d.parent in S
  }

  /** Child lists say the same as parent pointers. */
  ghost predicate ListsAgree(S: set<Dentry>)
    reads S`parent, S`subdirs
  {
    && (forall d {:trigger d.subdirs} :: d in S ==> NoDup(d.subdirs))
    && (forall d, c {:trigger c in d.subdirs} :: d in S && c in d.subdirs ==> c in S)
    && (forall d, c {:trigger c in d.subdirs} :: d in S && c in S ==> (c in d.subdirs <==> c.parent == d && c != d))
  }

  /** Only directories have children, and a directory has one dentry. */
  ghost predicate KindsAgree(S: set<Dentry>)
    reads S`parent, S`inode
  {
    && (forall c {:trigger c.parent} :: c in S && c.parent != c && c.parent in S ==> c.parent.inode.DirInode?)
    && (forall c, d {:trigger c.inode, d.inode} :: c in S && d in S && c.inode.DirInode? && c.inode == d.inode ==> c == d)
  }

  /** A name in a directory is hashed at most once. */
  ghost predicate NamesApart(S: set<Dentry>)
    reads S`parent, S`name, S`hashed
  {
    forall c, d {:trigger c.hashed, d.hashed} ::
      c in S && d in S && c.hashed && d.hashed && c.parent == d.parent && c.name == d.name ==> c == d
  }

  ghost predicate Valid(S: set<Dentry>)
    reads S`parent, S`subdirs, S`inode, S`name, S`hashed
  {
    ParentsIn(S) && Forest(Up(S)) && ListsAgree(S) && KindsAgree(S) && NamesApart(S)
  }

  /** `a` is a proper ancestor of `d`. */
  ghost predicate Ancestor(S: set<Dentry>, a: Dentry, d: Dentry)
    requires Forest(Up(S)) && d in S && d.parent in S
    reads S`parent, d`parent
  {
    d.parent != d && Above(Up(S), a, d.parent)
  }

  /** d_ancestor: the child of `p1` on the way up from `p2`, if `p1` is an ancestor of `p2`. */
  method DAncestor(ghost S: set<Dentry>, p1: Dentry, p2: Dentry) returns (r: Dentry?)
    requires ParentsIn(S) && Forest(Up(S)) && p1 in S && p2 in S
    ensures r != null <==> Ancestor(S, p1, p2)
    ensures r != null ==> r in S && r.parent == p1 && r != p1 && Above<Dentry>(Up(S), r, p2)
  {
    hide Forest, Above, Climb;
    ghost var up := Up(S);
    var p := p2;
    ghost var k := StepsUp(up, p);
    AboveSelf(up, p2);
    while p.parent != p
      invariant up == Up(S) && p in S && Above(up, p, p2) && Inside(up) && Root(up, Climb(up, p, k))
      invariant Ancestor(S, p1, p2) <==> Ancestor(S, p1, p)
      decreases k
    {
      StepUp(up, p, k);
      AboveStep(up, p1, p.parent);
      if p.parent == p1 { AboveSelf(up, p1); return p; }
      if p.parent.parent == p.parent { AboveRoot(up, p1, p.parent); }
      assert k > 0;
      AboveSelf(up, p);
      AboveTrans(up, p.parent, p, p2);
      p := p.parent;
      k := k - 1;
    }
    return null;
  }

  lemma StepsUp(up: map<Dentry, Dentry>, d: Dentry) returns (k: nat)
    requires Forest(up) && d in up
    ensures Inside(up) && Root(up, Climb(up, d, k))
  {
    k := EndsSomewhere(up, d);
  }

  // ---------------------------------------------------------------- child lists

  /** Every list is free of repetitions and stays inside. */
  ghost predicate ListsSane(S: set<Dentry>)
    reads S`subdirs
  {
    && (forall d {:trigger d.subdirs} :: d in S ==> NoDup(d.subdirs))
    && (forall d, c {:trigger c in d.subdirs} :: d in S && c in d.subdirs ==> c in S)
  }

  /** `c` is on the list of `to` and on no other; nothing else has changed lists. */
  twostate predicate Relisted(S: set<Dentry>, c: Dentry, to: Dentry?)
    reads S`subdirs
  {
    forall d, x {:trigger x in d.subdirs} :: d in S && x in S ==> (x in d.subdirs <==> if x == c then d == to else old(x in d.subdirs))
  }

  lemma RelistContents(from: seq<Dentry>, to: seq<Dentry>, c: Dentry)
    requires NoDup(from) && NoDup(to) && c !in to
    ensures NoDup(Remove(from, c)) && NoDup([c] + to)
    ensures forall x :: x in Remove(from, c) <==> x in from && x != c
    ensures forall x :: x in [c] + to <==> x == c || x in to
  {
    hide Remove, NoDup;
    RemoveContents(from, c);
    SingletonNoDup(c);
    NoDupAppend([c], to);
  }

  /** list_move(&c->d_child, &to->d_subdirs), or list_del_init(&c->d_child) when there is no `to` */
  method Relist(ghost S: set<Dentry>, c: Dentry, from: Dentry, to: Dentry?)
    requires ListsSane(S) && c in S && from in S && (to != null ==> to in S)
    requires forall d {:trigger d.subdirs} :: d in S && c in d.subdirs ==> d == from
    modifies S`subdirs
    ensures ListsSane(S) && Relisted(S, c, to)
  {
    hide Remove, NoDup;
    RelistContents(from.subdirs, [], c) by { EmptyNoDup<Dentry>(); }
    from.subdirs := Remove(from.subdirs, c);
    if to != null {
      RelistContents([], to.subdirs, c) by { EmptyNoDup<Dentry>(); }
      to.subdirs := [c] + to.subdirs;
    }
  }

  // ---------------------------------------------------------------- __d_move

  datatype Pair = Pair(S: set<Dentry>, dentry: Dentry, target: Dentry, exchange: bool)

  /** No other dentry is hashed where `d` is. */
  ghost predicate PlaceFree(S: set<Dentry>, d: Dentry, other: Dentry)
    reads S`parent, S`name, S`hashed, d
  {
    forall c {:trigger c.hashed} :: c in S && c.hashed && c.parent == d.parent && c.name == d.name ==> c == d || c == other
  }

  /** What __d_move demands, with its two BUG_ONs. */
  ghost predicate CanMove(m: Pair)
    reads m.S, m.dentry, m.target
  {
    && Valid(m.S) && m.dentry in m.S && m.target in m.S && m.dentry != m.target
    && !Ancestor(m.S, m.dentry, m.target) && !Ancestor(m.S, m.target, m.dentry)
    && m.target.parent != m.target && PlaceFree(m.S, m.target, m.dentry)
    && (m.exchange ==> m.dentry.parent != m.dentry && m.dentry.hashed && m.target.hashed)
  }

  /** `dentry` is where `target` was. What becomes of `target` depends on the kind of move. */
  twostate predicate Moved(m: Pair)
    reads m.S`parent, m.S`name, m.S`hashed, m.S`inode
  {
    var S, dentry, target := m.S, m.dentry, m.target;
    && (forall d {:trigger d.parent} :: d in S ==>
          d.parent == if d == dentry then old(target.parent)
                      else if d == target then (if old(dentry.parent) == dentry then target else old(dentry.parent))
                      else old(d.parent))
    && (forall d {:trigger d.name} :: d in S ==>
          d.name == if d == dentry then old(target.name) else if d == target && m.exchange then old(dentry.name) else old(d.name))
    && (forall d {:trigger d.hashed} :: d in S ==>
          d.hashed == if d == dentry then true else if d == target then m.exchange else old(d.hashed))
    && (forall d {:trigger d.inode} :: d in S ==> d.inode == old(d.inode))
  }

  twostate lemma MovedParents(m: Pair)
    requires old(CanMove(m)) && Moved(m)
    ensures ParentsIn(m.S) && KindsAgree(m.S)
    ensures Up(m.S) == if old(m.dentry.parent) == m.dentry then Spliced(old(Up(m.S)), m.dentry, m.target)
                       else Swapped(old(Up(m.S)), m.dentry, m.target)
  {
    hide Forest, Above, ListsAgree, NamesApart, PlaceFree;
  }

  twostate lemma MovedForest(m: Pair)
    requires old(CanMove(m)) && Moved(m)
    ensures Forest(Up(m.S))
  {
    hide Above, ListsAgree, NamesApart, PlaceFree, KindsAgree, Ends;
    MovedParents(m);
    if old(m.dentry.parent) == m.dentry {
      SpliceKeepsForest(old(Up(m.S)), m.dentry, m.target);
    } else {
      SwapKeepsForest(old(Up(m.S)), m.dentry, m.target);
    }
  }

  twostate lemma MovedNames(m: Pair)
    requires old(CanMove(m)) && Moved(m)
    ensures NamesApart(m.S)
  {
    hide Forest, Above, ListsAgree, KindsAgree, Ancestor;
    forall c, d | c in m.S && d in m.S && c.hashed && d.hashed && c.parent == d.parent && c.name == d.name ensures c == d {
      assert old(m.dentry.hashed && m.target.hashed) ==> old(m.dentry.name != m.target.name || m.dentry.parent != m.target.parent);
      assert old(c.hashed) == old(c.hashed) && old(d.hashed) == old(d.hashed);
    }
  }

  /** Both are on their new lists and on no others. */
  twostate predicate BothRelisted(m: Pair, onTarget: Dentry?, onDentry: Dentry)
    reads m.S`subdirs
  {
    forall d, x {:trigger x in d.subdirs} :: d in m.S && x in m.S ==>
      (x in d.subdirs <==> if x == m.dentry then d == onDentry else if x == m.target then d == onTarget else old(x in d.subdirs))
  }

  method RelistBoth(ghost m: Pair, dentry: Dentry, target: Dentry, p: Dentry, q: Dentry, to: Dentry?)
    requires ListsSane(m.S) && m.dentry == dentry && m.target == target && dentry in m.S && target in m.S &&
      dentry != target && p in m.S && q in m.S
    requires to == null || to == p
    requires forall d {:trigger d.subdirs} :: d in m.S && target in d.subdirs ==> d == q
    requires forall d {:trigger d.subdirs} :: d in m.S && dentry in d.subdirs ==> d == p
    modifies m.S`subdirs
    ensures ListsSane(m.S) && BothRelisted(m, to, q)
  {
    hide ListsSane;
    Relist(m.S, target, q, to);
    Relist(m.S, dentry, p, q);
  }

  twostate lemma MovedLists(m: Pair)
    requires old(CanMove(m)) && Moved(m) && ListsSane(m.S)
    requires old(m.dentry.parent) in m.S && old(m.target.parent) in m.S
    requires BothRelisted(m, if old(m.dentry.parent) == m.dentry then null else old(m.dentry.parent), old(m.target.parent))
    ensures ListsAgree(m.S)
  {
    hide Above, KindsAgree, PlaceFree, NamesApart, NoDup, Ends;
    AboveSelf(old(Up(m.S)), old(m.target.parent));
    AboveSelf(old(Up(m.S)), old(m.dentry.parent));
  }

  lemma OnOwnList(m: Pair)
    requires CanMove(m)
    ensures ListsSane(m.S) && m.dentry.parent in m.S && m.target.parent in m.S
    ensures forall d {:trigger d.subdirs} :: d in m.S && m.target in d.subdirs ==> d == m.target.parent
    ensures forall d {:trigger d.subdirs} :: d in m.S && m.dentry in d.subdirs ==> d == m.dentry.parent
  {
    hide Forest, Above, KindsAgree, Ancestor, PlaceFree, NamesApart, NoDup;
  }

  /** The names, the hash and the parents. */
  method SwitchPlaces(ghost m: Pair, dentry: Dentry, target: Dentry, exchange: bool)
    requires m == Pair(m.S, dentry, target, exchange) && dentry in m.S && target in m.S && dentry != target
    modifies m.S`parent, m.S`name, m.S`hashed
    ensures Moved(m)
  {
    var name, p := dentry.name, dentry.parent;
    dentry.name := target.name;
    if exchange { target.name := name; }
    dentry.hashed, target.hashed := true, exchange;
    dentry.parent := target.parent;
    target.parent := if p == dentry then target else p;
  }

  /** __d_move */
  method DMove(ghost S: set<Dentry>, dentry: Dentry, target: Dentry, exchange: bool)
    requires CanMove(Pair(S, dentry, target, exchange))
    modifies S`parent, S`subdirs, S`name, S`hashed
    ensures Valid(S) && Moved(Pair(S, dentry, target, exchange))
  {
    hide Forest, Up, ListsAgree, ListsSane, KindsAgree, NamesApart, Ancestor, PlaceFree, Moved;
    ghost var m := Pair(S, dentry, target, exchange);
    OnOwnList(m);
    var p, q := dentry.parent, target.parent;
    SwitchPlaces(m, dentry, target, exchange);
    RelistBoth(m, dentry, target, p, q, if p == dentry then null else p);
    MovedParents(m);
    MovedForest(m);
    MovedNames(m);
    MovedLists(m);
  }

  // ---------------------------------------------------------------- allocation and splicing

  twostate predicate Unchanged(S: set<Dentry>)
    reads S
  {
    forall d :: d in S ==> unchanged(d)
  }

  /** `d` is a new child of `parent`, first on its list, and nothing else has changed. */
  twostate predicate Alloced(S: set<Dentry>, parent: Dentry, new d: Dentry)
    reads S, d
  {
    && d !in S && d.parent == parent && d.inode == NoInode && !d.hashed && d.subdirs == []
    && (forall c {:trigger c.parent} :: c in S ==> c.parent == old(c.parent))
    && (forall c {:trigger c.inode} :: c in S ==> c.inode == old(c.inode))
    && (forall c {:trigger c.name} :: c in S ==> c.name == old(c.name))
    && (forall c {:trigger c.hashed} :: c in S ==> c.hashed == old(c.hashed))
    && (forall c {:trigger c.subdirs} :: c in S ==> c.subdirs == if c == parent then [d] + old(c.subdirs) else old(c.subdirs))
  }

  /** A place for a new child. */
  datatype ChildPlace = ChildPlace(S: set<Dentry>, parent: Dentry)

  twostate lemma AllocLists(k: ChildPlace, new d: Dentry)
    requires old(Valid(k.S)) && k.parent in k.S && Alloced(k.S, k.parent, d)
    ensures ListsAgree(k.S + {d})
  {
    hide Forest, Up, KindsAgree, NamesApart, NoDup;
    SingletonNoDup(d);
    EmptyNoDup<Dentry>();
    NoDupAppend([d], old(k.parent.subdirs));
  }

  twostate lemma AllocForest(k: ChildPlace, new d: Dentry)
    requires old(Valid(k.S)) && k.parent in k.S && Alloced(k.S, k.parent, d)
    ensures Forest(Up(k.S + {d}))
  {
    hide Forest, ListsAgree, KindsAgree, NamesApart;
    var up := old(Up(k.S));
    assert Up(k.S + {d}) == up[d := k.parent];
    LeafKeepsForest(up, d, k.parent);
  }

  twostate lemma AllocRest(k: ChildPlace, new d: Dentry)
    requires old(Valid(k.S)) && k.parent in k.S && old(k.parent.inode.DirInode?) && Alloced(k.S, k.parent, d)
    ensures ParentsIn(k.S + {d}) && KindsAgree(k.S + {d}) && NamesApart(k.S + {d})
  {
    hide Forest, Up, ListsAgree;
  }

  /** d_alloc */
  method DAlloc(ghost S: set<Dentry>, parent: Dentry, name: string) returns (d: Dentry)
    requires Valid(S) && parent in S && parent.inode.DirInode?
    modifies parent`subdirs
    ensures fresh(d) && d.name == name && Alloced(S, parent, d)
    ensures Valid(S + {d})
  {
    hide Valid;
    d := new Dentry(name);
    d.parent := parent;
    parent.subdirs := [d] + parent.subdirs;
    assert Alloced(S, parent, d);
    ghost var k := ChildPlace(S, parent);
    AllocLists(k, d);
    AllocForest(k, d);
    AllocRest(k, d);
    AllValid(S + {d});
  }

  lemma AllValid(S: set<Dentry>)
    requires ParentsIn(S) && Forest(Up(S)) && ListsAgree(S) && KindsAgree(S) && NamesApart(S)
    ensures Valid(S)
  {
  }

  /** __d_add: the dentry gets its inode, if any, and is hashed. */
  method DAdd(ghost S: set<Dentry>, d: Dentry, inode: Inode)
    requires Valid(S) && d in S && d.inode == NoInode && PlaceFree(S, d, d)
    requires inode.DirInode? ==> forall c :: c in S ==> c.inode != inode
    modifies d`inode, d`hashed
    ensures Valid(S) && d.inode == inode && d.hashed
  {
    hide Forest;
    ghost var up := Up(S);
    d.inode := inode;
    d.hashed := true;
    assert Up(S) == up;
  }

  /** Something has to be right below an ancestor. */
  lemma AncestorHasChild(S: set<Dentry>, a: Dentry, d: Dentry) returns (c: Dentry)
    requires ParentsIn(S) && Forest(Up(S)) && d in S && Ancestor(S, a, d)
    ensures c in S && c.parent == a && c != a
  {
    hide Forest, Climb;
    var up := Up(S);
    InsideUp(S);
    var k: nat :| Climb(up, d.parent, k) == a;
    c := d;
    while k > 0 && c.parent != a
      invariant c in S && c.parent != c && Climb(up, c.parent, k) == a && Inside(up) && up == Up(S)
      decreases k
    {
      StepUp(up, c.parent, k);
      if c.parent.parent == c.parent { RootStays(up, c.parent, k); }
      c := c.parent;
      k := k - 1;
    }
    if k == 0 { StepUp(up, c.parent, 0); }
  }

  lemma InsideUp(S: set<Dentry>)
    requires ParentsIn(S)
    ensures Inside(Up(S))
  {
  }

  datatype Splice = Added | Reused(alias: Dentry) | LoopError | StaleError

  /** When the alias may be moved over the new dentry. */
  lemma SpliceCanMove(S: set<Dentry>, alias: Dentry, dentry: Dentry)
    requires Valid(S) && alias in S && dentry in S && alias.inode.DirInode? && dentry.inode == NoInode
    requires dentry.parent != dentry && PlaceFree(S, dentry, dentry) && !Ancestor(S, alias, dentry)
    ensures CanMove(Pair(S, alias, dentry, false))
  {
    hide Forest;
    if Ancestor(S, dentry, alias) {
      var c := AncestorHasChild(S, dentry, alias);
    }
  }

  /** d_splice_alias, where `aliases` is the alias list of the inode and `locked` says whether __d_unalias got its locks */
  method DSpliceAlias(ghost S: set<Dentry>, dentry: Dentry, inode: Inode, aliases: seq<Dentry>, locked: bool) returns (r: Splice)
    requires Valid(S) && dentry in S && dentry.inode == NoInode && !dentry.hashed && dentry.parent != dentry
    requires PlaceFree(S, dentry, dentry)
    requires forall d {:trigger d.inode} :: d in S ==> (d in aliases <==> inode != NoInode && d.inode == inode)
    requires forall i :: 0 <= i < |aliases| ==> aliases[i] in S
    modifies S
    ensures Valid(S)
    ensures r.LoopError? <==> inode.DirInode? && aliases != [] && old(Ancestor(S, aliases[0], dentry))
    ensures r.LoopError? || r.StaleError? ==> Unchanged(S)
    ensures r.StaleError? <==> !locked && inode.DirInode? && aliases != [] && old(
      !Ancestor(S, aliases[0], dentry) && aliases[0].parent != aliases[0] && aliases[0].parent != dentry.parent)
    ensures r.Added? <==> !inode.DirInode? || aliases == []
    ensures r.Reused? ==> r.alias in S && r.alias.inode == inode && Moved(Pair(S, r.alias, dentry, false))
    ensures r.Added? ==> dentry.inode == inode && dentry.hashed && dentry.parent == old(dentry.parent)
  {
    hide Forest, Up, ListsAgree, NamesApart, Ancestor, CanMove;
    if inode.DirInode? && aliases != [] {
      var alias := aliases[0];
      assert alias in aliases;
      var above := DAncestor(S, alias, dentry);
      if above != null { return LoopError; }
      if alias.parent != alias && alias.parent != dentry.parent && !locked { return StaleError; }
      SpliceCanMove(S, alias, dentry);
      DMove(S, alias, dentry, false);
      r := Reused(alias);
    } else {
      DAdd(S, dentry, inode);
      r := Added;
    }
  }

  // ---------------------------------------------------------------- rename

  /** `o` is a child of `p`. */
  ghost predicate ChildOf(S: set<Dentry>, o: Dentry, p: Dentry)
    reads o`parent
  {
    o in S && o.parent == p && o != p
  }

  /** Of all children of `p`, exactly the one above `q`, if there is one, is the trap. */
  ghost predicate Traps(S: set<Dentry>, trap: Dentry?, p: Dentry, q: Dentry)
    requires ParentsIn(S) && Forest(Up(S)) && q in S
    reads S`parent
  {
    forall o {:trigger o.parent} :: o in S && o.parent == p && o != p ==> (o == trap <==> Above(Up(S), o, q))
  }

  /** d_ancestor(p, q) finds exactly the child of `p` that would make a loop. */
  lemma AncestorTraps(S: set<Dentry>, r: Dentry?, p: Dentry, q: Dentry)
    requires ParentsIn(S) && Forest(Up(S)) && p in S && q in S && p != q
    requires r != null <==> Ancestor(S, p, q)
    requires r != null ==> r in S && r.parent == p && r != p && Above<Dentry>(Up(S), r, q)
    ensures Traps(S, r, p, q)
  {
    hide Above, Climb, Ends;
    var up := Up(S);
    forall o | o in S && o.parent == p && o != p ensures o == r <==> Above(up, o, q) {
      if Above(up, o, q) {
        AboveSelf(up, o);
        AboveTrans(up, p, o, q);
        AboveStep(up, p, q);
        if q.parent == q { AboveRoot(up, p, q); }
        var c: Dentry := r;
        OnlyChildAbove(up, p, c, o, q);
      }
    }
  }

  lemma NothingTraps(S: set<Dentry>, p: Dentry, q: Dentry)
    requires ParentsIn(S) && Forest(Up(S)) && p in S && q in S
    requires p == q || Ancestor(S, q, p)
    ensures Traps(S, null, p, q)
  {
    hide Above, Climb, Ends;
    var up := Up(S);
    forall o | o in S && o.parent == p && o != p ensures !Above(up, o, q) {
      if Above(up, o, q) {
        AboveStep(up, q, p);
        AboveSelf(up, p);
        AboveTrans(up, o, q, p);
        NotAboveParent(up, o);
        assert false;
      }
    }
  }

  /** lock_rename, as far as the trap goes: `p1` is the new directory and `p2` the old one. */
  method FindTrap(ghost S: set<Dentry>, p1: Dentry, p2: Dentry) returns (trap: Dentry?)
    requires ParentsIn(S) && Forest(Up(S)) && p1 in S && p2 in S
    ensures Traps(S, trap, p2, p1) && Traps(S, trap, p1, p2)
  {
    hide Forest, Ancestor;
    if p1 == p2 {
      NothingTraps(S, p1, p2);
      return null;
    }
    trap := DAncestor(S, p2, p1);
    AncestorTraps(S, trap, p2, p1);
    if trap != null {
      NothingTraps(S, p1, p2);
      return;
    }
    trap := DAncestor(S, p1, p2);
    AncestorTraps(S, trap, p1, p2);
    assert Traps(S, trap, p2, p1);
  }

  datatype Outcome = Renamed | SameInode | EINVAL | ENOTEMPTY | ENOENT | EEXIST | ENOTDIR | EISDIR | Refused

  /** What the two lookups under the locks of the two directories have found. */
  ghost predicate LookedUp(S: set<Dentry>, oldDir: Dentry, newDir: Dentry, o: Dentry, n: Dentry)
    reads S, o, n
  {
    && Valid(S) && oldDir in S && newDir in S && ChildOf(S, o, oldDir) && ChildOf(S, n, newDir)
    && (o.inode != NoInode ==> o.hashed) && (n.inode != NoInode ==> n.hashed)
    && PlaceFree(S, n, o) && (o != n || o.hashed)
  }

  /** The trap test of renameat2 is exact: it lets a rename through if and only if neither dentry is an ancestor of the other. */
  lemma TrapTestExact(S: set<Dentry>, oldDir: Dentry, newDir: Dentry, o: Dentry, n: Dentry, trap: Dentry?)
    requires LookedUp(S, oldDir, newDir, o, n) && Traps(S, trap, oldDir, newDir) && Traps(S, trap, newDir, oldDir)
    ensures o == trap <==> Ancestor(S, o, n)
    ensures n == trap <==> Ancestor(S, n, o)
  {
    hide Forest, Above, ListsAgree, KindsAgree, NamesApart, PlaceFree;
  }

  /** What the names and flags of a rename ask for is there and fits. */
  ghost predicate Fits(o: Inode, n: Inode, exchange: bool, noReplace: bool, oldSlash: bool, newSlash: bool) {
    && !(exchange && noReplace) && o != NoInode && (exchange ==> n != NoInode) && (noReplace ==> n == NoInode)
    && (oldSlash ==> o.DirInode?) && (newSlash ==> if exchange then n.DirInode? else o.DirInode?)
  }

  /**
   renameat2 after its lookups, and vfs_rename. `pathOk` stands for the check on the paths, `permitted` for the ones before
   the kinds are compared, and `fsOk` for the later ones and the rename of the filesystem itself.
   */
  method Rename(ghost S: set<Dentry>, oldDir: Dentry, newDir: Dentry, o: Dentry, n: Dentry, exchange: bool, noReplace: bool,
                oldSlash: bool, newSlash: bool, pathOk: bool, permitted: bool, fsOk: bool)
    returns (r: Outcome)
    requires LookedUp(S, oldDir, newDir, o, n)
    modifies S`parent, S`subdirs, S`name, S`hashed
    ensures Valid(S)
    ensures r == Renamed ==> Moved(Pair(S, o, n, exchange)) && o != n
    ensures r != Renamed ==> Unchanged(S)
    ensures r == Renamed <==>
      && Fits(o.inode, n.inode, exchange, noReplace, oldSlash, newSlash) && !old(Ancestor(S, o, n)) && !old(Ancestor(S, n, o))
      && o.inode != n.inode && (!exchange && n.inode != NoInode ==> o.inode.DirInode? == n.inode.DirInode?)
      && pathOk && permitted && fsOk
    ensures r == SameInode <==>
      && Fits(o.inode, n.inode, exchange, noReplace, oldSlash, newSlash) && !old(Ancestor(S, o, n)) && !old(Ancestor(S, n, o))
      && o.inode == n.inode && pathOk
    ensures r == EINVAL <==>
      || (exchange && noReplace)
      || (Fits(o.inode, n.inode, exchange, noReplace, oldSlash, newSlash) && old(Ancestor(S, o, n) || (exchange && Ancestor(S, n, o))))
    ensures r == ENOTEMPTY <==>
      && Fits(o.inode, n.inode, exchange, noReplace, oldSlash, newSlash)
      && !exchange && !old(Ancestor(S, o, n)) && old(Ancestor(S, n, o))
    ensures r == ENOENT <==> !(exchange && noReplace) && (o.inode == NoInode || (exchange && n.inode == NoInode))
    ensures r == EEXIST <==> !exchange && noReplace && o.inode != NoInode && n.inode != NoInode
    ensures r == ENOTDIR ==> !o.inode.DirInode? || !n.inode.DirInode?
    ensures r == ENOTDIR && !oldSlash && !newSlash ==> !exchange && o.inode.DirInode? && n.inode != NoInode
    ensures r == EISDIR ==> !exchange && !o.inode.DirInode? && n.inode.DirInode?
    ensures r == Refused ==> !pathOk || !permitted || !fsOk
  {
    hide Forest, Up, ListsAgree, NamesApart, KindsAgree, Ancestor, Above;
    var trap := FindTrap(S, newDir, oldDir);
    TrapTestExact(S, oldDir, newDir, o, n, trap);
    if noReplace && exchange { return EINVAL; }
    if o.inode == NoInode { return ENOENT; }
    if noReplace && n.inode != NoInode { return EEXIST; }
    if exchange {
      if n.inode == NoInode { return ENOENT; }
      if !n.inode.DirInode? && newSlash { return ENOTDIR; }
    }
    if !o.inode.DirInode? {
      if oldSlash { return ENOTDIR; }
      if !exchange && newSlash { return ENOTDIR; }
    }
    if o == trap { return EINVAL; }
    if n == trap { return if exchange then EINVAL else ENOTEMPTY; }
    if !pathOk { return Refused; }
    // vfs_rename
    if o.inode == n.inode { return SameInode; }
    if !permitted { return Refused; }
    if n.inode != NoInode && !exchange {
      if o.inode.DirInode? && !n.inode.DirInode? { return ENOTDIR; }
      if !o.inode.DirInode? && n.inode.DirInode? { return EISDIR; }
    }
    if !fsOk { return Refused; }
    DMove(S, o, n, exchange);
    r := Renamed;
  }
}
