/**
 Mount namespaces that hold each other's files: what creation, mounting, binding, moving and propagation keep, and why
 the references between namespaces never close a cycle.
 */
module NsLoop {
  import opened DirTree

  /** The namespace of mounts that are in none, such as the one every namespace file lives on. */
  const INTERNAL: int := -1

  /** A mount: the namespace it is in, its root dentry, and its parent, itself for the root of a tree. */
  datatype Mnt = Mnt(ns: int, root: int, parent: int)

  /**
   Mount namespaces with their sequence numbers, the counter, mounts, which dentries are files of mount namespaces, and
   which are files of namespaces of other kinds.
   */
  datatype State = State(seqs: map<int, int>, last: int, mounts: map<int, Mnt>, files: map<int, int>, others: set<int>)

  ghost function Up(s: State): map<int, int> { map m | m in s.mounts :: s.mounts[m].parent }

  ghost predicate IsFile(s: State, dentry: int) { dentry in s.files }

  /** New mounts have new ids; the parent of each, new or not, is in the same namespace. */
  ghost predicate Fits(s: State, more: map<int, Mnt>) {
    && more.Keys !! s.mounts.Keys
    && forall x {:trigger more[x]} :: x in more ==>
         && (more[x].ns in s.seqs || more[x].ns == INTERNAL)
         && var all := s.mounts + more; more[x].parent in all && all[more[x].parent].ns == more[x].ns
  }

  /** What is copied without CL_COPY_MNT_NS_FILE, by propagation and when a namespace is created. */
  ghost predicate NoFiles(s: State, more: map<int, Mnt>) {
    forall x {:trigger more[x]} :: x in more ==> !IsFile(s, more[x].root)
  }

  ghost predicate InNs(more: map<int, Mnt>, n: int) {
    forall x {:trigger more[x]} :: x in more ==> more[x].ns == n
  }

  /** No mount of `more` is its own parent: only a namespace has a root mount. */
  ghost predicate Hung(more: map<int, Mnt>) {
    forall x {:trigger more[x]} :: x in more ==> more[x].parent != x
  }

  /** `kept` are mounts below `src`, other than itself: those that copy_tree does not prune. */
  ghost predicate KeptBelow(s: State, src: int, kept: set<int>)
    requires Inside(Up(s))
  {
    kept <= s.mounts.Keys && forall o {:trigger s.mounts[o]} :: o in kept ==> o != src && Above(Up(s), src, o)
  }

  ghost predicate HasRoot(tree: map<int, Mnt>, root: int) {
    exists x {:trigger tree[x]} :: x in tree && tree[x].root == root
  }

  /** What is copied with CL_COPY_MNT_NS_FILE: a mount of `dentry`, and one of the root of every mount that is kept. */
  ghost predicate CopiesOf(s: State, tree: map<int, Mnt>, dentry: int, kept: set<int>)
    requires kept <= s.mounts.Keys
  {
    && (forall x {:trigger tree[x]} :: x in tree ==>
          || tree[x].root == dentry
          || exists o {:trigger s.mounts[o]} :: o in kept && s.mounts[o].root == tree[x].root)
    && forall o {:trigger s.mounts[o]} :: o in kept ==> HasRoot(tree, s.mounts[o].root)
  }

  /** The test of mnt_ns_loop for a task in `c`. */
  ghost predicate WouldLoop(s: State, c: int, dentry: int)
    requires c in s.seqs
  {
    IsFile(s, dentry) && s.files[dentry] in s.seqs && s.seqs[c] >= s.seqs[s.files[dentry]]
  }

  /**
   What a system call does, by a task in namespace `c`; `more` is what propagation adds, in any namespaces.
   */
  datatype Step =
    | NewNs(n: int, more: map<int, Mnt>)
    | NewFile(dentry: int, n: int, x: int)
    | NewOther(dentry: int, x: int)
    | NewMount(c: int, more: map<int, Mnt>)
    | Bind(c: int, src: int, dentry: int, x: int, parent: int, more: map<int, Mnt>)
    | BindTree(c: int, src: int, dentry: int, kept: set<int>, tree: map<int, Mnt>, more: map<int, Mnt>)
    | Move(c: int, x: int, parent: int, more: map<int, Mnt>)
    | Remove(gone: set<int>)

  ghost predicate Does(s: State, step: Step, s': State) {
    && Inside(Up(s))
    && match step
       case NewNs(n, more) =>  // copy_mnt_ns: no file is copied, the counter is bumped
         var t := s.(seqs := s.seqs[n := s.last + 1], last := s.last + 1);
         n !in s.seqs && n != INTERNAL && Fits(t, more) && InNs(more, n) && NoFiles(s, more)
         && s' == t.(mounts := s.mounts + more)
       case NewFile(dentry, n, x) =>  // a file of a namespace appears, reached through a mount that is in none
         && n in s.seqs && dentry !in s.files && dentry !in s.others && x !in s.mounts
         && (forall m {:trigger s.mounts[m]} :: m in s.mounts ==> s.mounts[m].root != dentry)
         && s' == s.(files := s.files[dentry := n], mounts := s.mounts[x := Mnt(INTERNAL, dentry, x)])
       case NewOther(dentry, x) =>
         && dentry !in s.files && x !in s.mounts
         && s' == s.(others := s.others + {dentry}, mounts := s.mounts + map[x := Mnt(INTERNAL, dentry, x)])
       case NewMount(c, more) =>
         && c in s.seqs && Fits(s, more) && Hung(more) && NoFiles(s, more) && s' == s.(mounts := s.mounts + more)
       case Bind(c, src, dentry, x, parent, more) =>  // do_loopback without MS_REC
         && MayBind(s, c, src, dentry) && parent in s.mounts && s.mounts[parent].ns == c
         && Fits(s, more) && Hung(more) && NoFiles(s, more) && Fits(s, map[x := Mnt(c, dentry, parent)]) && x !in more
         && s' == s.(mounts := s.mounts + map[x := Mnt(c, dentry, parent)] + more)
       case BindTree(c, src, dentry, kept, tree, more) =>  // do_loopback with MS_REC
         && MayBind(s, c, src, dentry) && KeptBelow(s, src, kept) && CopiesOf(s, tree, dentry, kept)
         && Fits(s, tree) && Hung(tree) && InNs(tree, c)
         && Fits(s, more) && Hung(more) && NoFiles(s, more) && tree.Keys !! more.Keys
         && s' == s.(mounts := s.mounts + tree + more)
       case Move(c, x, parent, more) =>  // do_move_mount: both ends in the caller's namespace
         && c in s.seqs && x in s.mounts && parent in s.mounts && s.mounts[x].ns == c && s.mounts[parent].ns == c
         && !Above(Up(s), x, parent) && Fits(s, more) && Hung(more) && NoFiles(s, more)
         && s' == s.(mounts := s.mounts[x := s.mounts[x].(parent := parent)] + more)
       case Remove(gone) =>
         && (forall m {:trigger s.mounts[m]} :: m in s.mounts && m !in gone ==> s.mounts[m].parent !in gone)
         && s' == s.(mounts := s.mounts - gone)
  }

  /**
   The source of a bind is in the caller's namespace, or is a file of any namespace; and mnt_ns_loop does not object. A mount
   of such a file has no other dentry.
   */
  ghost predicate MayBind(s: State, c: int, src: int, dentry: int) {
    && c in s.seqs && src in s.mounts && (s.mounts[src].ns == c || IsFile(s, dentry) || dentry in s.others)
    && (IsFile(s, s.mounts[src].root) || s.mounts[src].root in s.others ==> dentry == s.mounts[src].root)
    && !WouldLoop(s, c, dentry)
  }

  // ---------------------------------------------------------------- the order

  /** `m` is a file of another namespace only if that one is younger than the one `m` is in. */
  ghost predicate Ordered(seqs: map<int, int>, files: map<int, int>, m: Mnt) {
    m.ns in seqs && m.root in files ==> files[m.root] in seqs && seqs[m.ns] < seqs[files[m.root]]
  }

  ghost predicate AllOrdered(seqs: map<int, int>, files: map<int, int>, mounts: map<int, Mnt>) {
    forall m {:trigger mounts[m]} :: m in mounts ==> Ordered(seqs, files, mounts[m])
  }

  ghost predicate TreesInOneNs(s: State) {
    && (forall m {:trigger s.mounts[m]} :: m in s.mounts ==> s.mounts[m].ns in s.seqs || s.mounts[m].ns == INTERNAL)
    && (forall m {:trigger s.mounts[m]} :: m in s.mounts ==>
          s.mounts[m].parent in s.mounts && s.mounts[s.mounts[m].parent].ns == s.mounts[m].ns)
  }

  ghost predicate Inv(s: State) {
    && TreesInOneNs(s) && AllOrdered(s.seqs, s.files, s.mounts) && INTERNAL !in s.seqs
    && (forall n {:trigger s.seqs[n]} :: n in s.seqs ==> s.seqs[n] <= s.last)
    && (forall d {:trigger s.files[d]} :: d in s.files ==> s.files[d] in s.seqs)
  }

  lemma InUp(s: State)
    ensures Up(s).Keys == s.mounts.Keys
  {
  }

  /** A mount and everything it is below are in one namespace. */
  lemma {:induction false} SameNsUp(s: State, o: int, k: nat)
    requires TreesInOneNs(s) && Inside(Up(s)) && o in s.mounts
    ensures Climb(Up(s), o, k) in s.mounts && s.mounts[Climb(Up(s), o, k)].ns == s.mounts[o].ns
    decreases k
  {
    if k > 0 { SameNsUp(s, s.mounts[o].parent, k - 1); }
  }

  /** Whether a mount in `c` is in order is what the test of mnt_ns_loop says about its root. */
  lemma OrderedIsTest(s: State, c: int, m: Mnt)
    requires Inv(s) && c in s.seqs && m.ns == c
    ensures Ordered(s.seqs, s.files, m) <==> !WouldLoop(s, c, m.root)
  {
    hide TreesInOneNs, AllOrdered;
  }

  /** The test passes for every mount that is to be copied. */
  ghost predicate AllPass(s: State, c: int, kept: set<int>)
    requires c in s.seqs
  {
    forall o {:trigger s.mounts[o]} :: o in kept && o in s.mounts ==> !WouldLoop(s, c, s.mounts[o].root)
  }

  /** A copied tree is in order if and only if the test passes for every mount copied, and not just for the root. */
  lemma TreeExact(s: State, c: int, dentry: int, kept: set<int>, tree: map<int, Mnt>)
    requires Inv(s) && c in s.seqs && kept <= s.mounts.Keys && !WouldLoop(s, c, dentry)
    requires InNs(tree, c) && CopiesOf(s, tree, dentry, kept)
    ensures AllOrdered(s.seqs, s.files, tree) <==> AllPass(s, c, kept)
  {
    hide Inv, WouldLoop, Ordered;
    forall x {:trigger tree[x]} | x in tree
      ensures Ordered(s.seqs, s.files, tree[x]) <==> !WouldLoop(s, c, tree[x].root)
    {
      OrderedIsTest(s, c, tree[x]);
    }
    if AllOrdered(s.seqs, s.files, tree) {
      forall o {:trigger s.mounts[o]} | o in kept && o in s.mounts
        ensures !WouldLoop(s, c, s.mounts[o].root)
      {
        assert HasRoot(tree, s.mounts[o].root);
      }
    }
  }

  /** What is below a mount of the caller's own namespace passes the test already. */
  lemma OwnPass(s: State, c: int, src: int, kept: set<int>)
    requires Inv(s) && Inside(Up(s)) && c in s.seqs && src in s.mounts && s.mounts[src].ns == c && KeptBelow(s, src, kept)
    ensures AllPass(s, c, kept)
  {
    hide Climb, Up, TreesInOneNs, WouldLoop, Ordered, Inside;
    InUp(s);
    forall o {:trigger s.mounts[o]} | o in kept && o in s.mounts
      ensures !WouldLoop(s, c, s.mounts[o].root)
    {
      var k: nat :| Climb(Up(s), o, k) == src;
      SameNsUp(s, o, k);
      OrderedIsTest(s, c, s.mounts[o]);
    }
  }

  /** Every mount below `src` passes the test, too. */
  ghost predicate SafeSource(s: State, c: int, src: int)
    requires Inside(Up(s)) && c in s.seqs
  {
    forall o {:trigger s.mounts[o]} :: o in s.mounts && o != src && Above(Up(s), src, o) ==> !WouldLoop(s, c, s.mounts[o].root)
  }

  /** Every copy of a tree from `src` on, whatever copy_tree keeps of it. */
  ghost predicate AllCopiesOrdered(s: State, c: int, src: int, dentry: int)
    requires Inside(Up(s))
  {
    forall kept: set<int>, tree: map<int, Mnt> {:trigger KeptBelow(s, src, kept), InNs(tree, c)} ::
      KeptBelow(s, src, kept) && InNs(tree, c) && CopiesOf(s, tree, dentry, kept) ==> AllOrdered(s.seqs, s.files, tree)
  }

  /** Whatever copy_tree keeps, its copy is in order, if and only if everything below the source passes the test. */
  lemma SafeSourceExact(s: State, c: int, src: int, dentry: int)
    requires Inv(s) && Inside(Up(s)) && MayBind(s, c, src, dentry)
    ensures SafeSource(s, c, src) <==> AllCopiesOrdered(s, c, src, dentry)
  {
    hide Inv, WouldLoop, Above, Inside, Up, AllOrdered, CopiesOf, InNs;
    InUp(s);
    if SafeSource(s, c, src) {
      forall kept: set<int>, tree: map<int, Mnt> | KeptBelow(s, src, kept) && InNs(tree, c) && CopiesOf(s, tree, dentry, kept)
        ensures AllOrdered(s.seqs, s.files, tree)
      {
        TreeExact(s, c, dentry, kept, tree);
      }
    } else {
      var o :| o in s.mounts && o != src && Above(Up(s), src, o) && WouldLoop(s, c, s.mounts[o].root);
      var tree := CopyOf(s, c, dentry, o);
      TreeExact(s, c, dentry, {o}, tree);
      assert KeptBelow(s, src, {o}) && !AllPass(s, c, {o});
    }
  }

  lemma CopyOf(s: State, c: int, dentry: int, o: int) returns (tree: map<int, Mnt>)
    requires o in s.mounts
    ensures InNs(tree, c) && CopiesOf(s, tree, dentry, {o})
  {
    tree := map[0 := Mnt(c, dentry, 1), 1 := Mnt(c, s.mounts[o].root, 0)];
    assert tree[1].root == s.mounts[o].root && HasRoot(tree, s.mounts[o].root);
  }

  lemma AddOrdered(seqs: map<int, int>, files: map<int, int>, mounts: map<int, Mnt>, more: map<int, Mnt>)
    requires mounts.Keys !! more.Keys
    ensures AllOrdered(seqs, files, mounts + more) <==> AllOrdered(seqs, files, mounts) && AllOrdered(seqs, files, more)
  {
    hide Ordered;
    var all := mounts + more;
    assert forall m {:trigger mounts[m]} :: m in mounts ==> m in all && all[m] == mounts[m];
    assert forall m {:trigger more[m]} :: m in more ==> m in all && all[m] == more[m];
    assert forall m {:trigger all[m]} :: m in all ==> if m in more then all[m] == more[m] else all[m] == mounts[m];
  }

  lemma AddTrees(s: State, more: map<int, Mnt>)
    requires TreesInOneNs(s) && Fits(s, more)
    ensures TreesInOneNs(s.(mounts := s.mounts + more))
  {
    var s' := s.(mounts := s.mounts + more);
    forall m {:trigger s'.mounts[m]} | m in s'.mounts
      ensures s'.mounts[m].ns in s'.seqs || s'.mounts[m].ns == INTERNAL
      ensures s'.mounts[m].parent in s'.mounts && s'.mounts[s'.mounts[m].parent].ns == s'.mounts[m].ns
    {
      if m in more {
        assert s'.mounts[m] == more[m];
      } else {
        assert s'.mounts[m] == s.mounts[m] && s.mounts[m].parent in s.mounts && s.mounts[m].parent !in more;
      }
    }
  }

  lemma FitsDisjoint(s: State, more: map<int, Mnt>)
    requires Fits(s, more)
    ensures s.mounts.Keys !! more.Keys
  {
  }

  /** New mounts keep everything in order exactly when they are in order themselves. */
  lemma AddExact(s: State, more: map<int, Mnt>)
    requires Inv(s) && Fits(s, more)
    ensures Inv(s.(mounts := s.mounts + more)) <==> AllOrdered(s.seqs, s.files, more)
  {
    hide Fits, AllOrdered, TreesInOneNs;
    FitsDisjoint(s, more);
    AddTrees(s, more);
    AddOrdered(s.seqs, s.files, s.mounts, more);
  }

  lemma PlainOrdered(s: State, seqs: map<int, int>, more: map<int, Mnt>)
    requires NoFiles(s, more)
    ensures AllOrdered(seqs, s.files, more)
  {
  }

  lemma FitsLater(s: State, first: map<int, Mnt>, more: map<int, Mnt>)
    requires Fits(s, first) && Fits(s, more) && first.Keys !! more.Keys
    ensures Fits(s.(mounts := s.mounts + first), more)
  {
    var t := s.(mounts := s.mounts + first);
    forall x {:trigger more[x]} | x in more
      ensures more[x].parent in t.mounts + more && (t.mounts + more)[more[x].parent].ns == more[x].ns
    {
      assert more[x].parent in s.mounts + more;
    }
  }

  /** A copied tree and what propagation adds without files: in order exactly when the tree is. */
  lemma AddTwoExact(s: State, tree: map<int, Mnt>, more: map<int, Mnt>)
    requires Inv(s) && Fits(s, tree) && Fits(s, more) && NoFiles(s, more) && tree.Keys !! more.Keys
    ensures Inv(s.(mounts := s.mounts + tree + more)) <==> AllOrdered(s.seqs, s.files, tree)
  {
    hide Fits, AllOrdered, TreesInOneNs, NoFiles;
    var t := s.(mounts := s.mounts + tree);
    AddExact(s, tree);
    FitsLater(s, tree, more);
    FitsDisjoint(t, more);
    PlainOrdered(s, s.seqs, more);
    if AllOrdered(s.seqs, s.files, tree) {
      AddExact(t, more);
    } else {
      FitsDisjoint(s, tree);
      AddOrdered(s.seqs, s.files, s.mounts, tree);
      AddOrdered(s.seqs, s.files, t.mounts, more);
    }
  }

  lemma NewNsKeeps(s: State, n: int)
    requires Inv(s) && n !in s.seqs && n != INTERNAL
    ensures Inv(s.(seqs := s.seqs[n := s.last + 1], last := s.last + 1))
  {
  }

  lemma NewFileKeeps(s: State, dentry: int, n: int, x: int)
    requires Inv(s) && n in s.seqs && dentry !in s.files && x !in s.mounts
    requires forall m {:trigger s.mounts[m]} :: m in s.mounts ==> s.mounts[m].root != dentry
    ensures Inv(s.(files := s.files[dentry := n], mounts := s.mounts[x := Mnt(INTERNAL, dentry, x)]))
  {
  }

  lemma NewOtherKeeps(s: State, dentry: int, x: int)
    requires Inv(s) && dentry !in s.files && x !in s.mounts
    ensures Inv(s.(others := s.others + {dentry}, mounts := s.mounts + map[x := Mnt(INTERNAL, dentry, x)]))
  {
    var more := map[x := Mnt(INTERNAL, dentry, x)];
    PlainOrdered(s, s.seqs, more);
    AddExact(s, more);
  }

  lemma MoveKeeps(s: State, c: int, x: int, parent: int)
    requires Inv(s) && x in s.mounts && parent in s.mounts && s.mounts[x].ns == c && s.mounts[parent].ns == c
    ensures Inv(s.(mounts := s.mounts[x := s.mounts[x].(parent := parent)]))
  {
  }

  lemma FitsMoved(s: State, x: int, parent: int, more: map<int, Mnt>)
    requires Fits(s, more) && x in s.mounts
    ensures Fits(s.(mounts := s.mounts[x := s.mounts[x].(parent := parent)]), more)
  {
    var t := s.(mounts := s.mounts[x := s.mounts[x].(parent := parent)]);
    forall y {:trigger more[y]} | y in more
      ensures more[y].parent in t.mounts + more && (t.mounts + more)[more[y].parent].ns == more[y].ns
    {
      assert more[y].parent in s.mounts + more;
    }
  }

  lemma RemoveKeeps(s: State, gone: set<int>)
    requires Inv(s) && forall m {:trigger s.mounts[m]} :: m in s.mounts && m !in gone ==> s.mounts[m].parent !in gone
    ensures Inv(s.(mounts := s.mounts - gone))
  {
    var t := s.(mounts := s.mounts - gone);
    forall m {:trigger t.mounts[m]} | m in t.mounts
      ensures t.mounts[m] == s.mounts[m]
    {
    }
  }

  lemma BoundOrdered(s: State, c: int, src: int, dentry: int, x: int, parent: int)
    requires Inv(s) && MayBind(s, c, src, dentry)
    ensures AllOrdered(s.seqs, s.files, map[x := Mnt(c, dentry, parent)])
  {
  }

  // ---------------------------------------------------------------- steps and runs

  /** The test of mnt_ns_loop passes for every mount that a recursive bind copies. */
  ghost predicate Passes(s: State, step: Step) {
    step.BindTree? ==> step.c in s.seqs && AllPass(s, step.c, step.kept)
  }

  /** Every step keeps the order, except a recursive bind that copies a file for which the test was not made and fails. */
  lemma StepExact(s: State, step: Step, s': State)
    requires Inv(s) && Does(s, step, s')
    ensures Inv(s') <==> Passes(s, step)
  {
    hide Inv, Fits, NoFiles, AllOrdered, AllPass, TreesInOneNs, Up, Inside, CopiesOf, InNs, Hung, WouldLoop;
    match step
    case NewNs(n, more) =>
      NewNsKeeps(s, n);
      PlainOrdered(s, s.seqs[n := s.last + 1], more);
      AddExact(s.(seqs := s.seqs[n := s.last + 1], last := s.last + 1), more);
    case NewFile(dentry, n, x) =>
      NewFileKeeps(s, dentry, n, x);
    case NewOther(dentry, x) =>
      NewOtherKeeps(s, dentry, x);
    case NewMount(c, more) =>
      PlainOrdered(s, s.seqs, more);
      AddExact(s, more);
    case Bind(c, src, dentry, x, parent, more) =>
      BoundOrdered(s, c, src, dentry, x, parent);
      AddTwoExact(s, map[x := Mnt(c, dentry, parent)], more);
    case BindTree(c, src, dentry, kept, tree, more) =>
      TreeExact(s, c, dentry, kept, tree);
      AddTwoExact(s, tree, more);
    case Move(c, x, parent, more) =>
      MoveKeeps(s, c, x, parent);
      FitsMoved(s, x, parent, more);
      PlainOrdered(s, s.seqs, more);
      AddExact(s.(mounts := s.mounts[x := s.mounts[x].(parent := parent)]), more);
    case Remove(gone) =>
      RemoveKeeps(s, gone);
  }

  /** A recursive bind takes its source from the caller's own namespace, or there is nothing else to copy. */
  ghost predicate OwnSource(s: State, step: Step) {
    step.BindTree? ==> step.kept == {} || (step.src in s.mounts && s.mounts[step.src].ns == step.c)
  }

  /** For such a bind the test of the root is enough. */
  lemma OwnSourcePasses(s: State, step: Step, s': State)
    requires Inv(s) && Does(s, step, s') && OwnSource(s, step)
    ensures Passes(s, step)
  {
    hide Inv, Up, Inside, CopiesOf, Fits, NoFiles, WouldLoop, KeptBelow;
    if step.BindTree? && step.kept != {} {
      OwnPass(s, step.c, step.src, step.kept);
    }
  }

  datatype Run = Run(states: seq<State>, steps: seq<Step>)

  ghost predicate Follows(r: Run, i: nat)
    requires i < |r.steps| && |r.states| == |r.steps| + 1
  {
    Does(r.states[i], r.steps[i], r.states[i + 1]) && OwnSource(r.states[i], r.steps[i])
  }

  /** A run in which recursive binds are taken from the caller's own namespace. */
  ghost predicate IsRun(r: Run) {
    && |r.states| == |r.steps| + 1
    && r.states[0] == State(map[], 1, map[], map[], {})
    && forall i: nat :: i < |r.steps| ==> Follows(r, i)
  }

  lemma {:induction false} RunOrdered(r: Run, i: nat)
    requires IsRun(r) && i < |r.states|
    ensures Inv(r.states[i])
  {
    hide Does, OwnSource, Inv, Passes;
    if i == 0 {
      EmptyOrdered();
    } else {
      RunOrdered(r, i - 1);
      assert Follows(r, i - 1);
      OwnSourcePasses(r.states[i - 1], r.steps[i - 1], r.states[i]);
      StepExact(r.states[i - 1], r.steps[i - 1], r.states[i]);
    }
  }

  lemma EmptyOrdered()
    ensures Inv(State(map[], 1, map[], map[], {}))
  {
  }

  /** Namespace `a` keeps namespace `b` alive: it has a mount of b's file. */
  ghost predicate Holds(s: State, a: int, b: int) {
    && a in s.seqs
    && exists m {:trigger s.mounts[m]} ::
         m in s.mounts && s.mounts[m].ns == a && IsFile(s, s.mounts[m].root) && s.files[s.mounts[m].root] == b
  }

  /** Each of the namespaces of `path` holds the next. */
  ghost predicate Chain(s: State, path: seq<int>) {
    forall i {:trigger path[i]} :: 0 < i < |path| ==> Holds(s, path[i - 1], path[i])
  }

  lemma HoldsYounger(s: State, a: int, b: int)
    requires Inv(s) && Holds(s, a, b)
    ensures a in s.seqs && b in s.seqs && s.seqs[a] < s.seqs[b]
  {
    var m :| m in s.mounts && s.mounts[m].ns == a && IsFile(s, s.mounts[m].root) && s.files[s.mounts[m].root] == b;
    assert Ordered(s.seqs, s.files, s.mounts[m]);
  }

  lemma {:induction false} ChainRises(s: State, path: seq<int>)
    requires Inv(s) && |path| >= 2 && Chain(s, path)
    ensures path[0] in s.seqs && path[|path| - 1] in s.seqs && s.seqs[path[0]] < s.seqs[path[|path| - 1]]
    decreases |path|
  {
    hide Holds, Inv;
    var n := |path| - 1;
    assert Holds(s, path[n - 1], path[n]);
    HoldsYounger(s, path[n - 1], path[n]);
    if n > 1 {
      assert forall i {:trigger path[..n][i]} :: 0 <= i < n ==> path[..n][i] == path[i];
      ChainRises(s, path[..n]);
    }
  }

  /** In every state of every run no chain of namespaces, each holding the next, comes back to where it started. */
  lemma NoNamespaceCycle(r: Run, i: nat, path: seq<int>)
    requires IsRun(r) && i < |r.states| && |path| >= 2 && Chain(r.states[i], path)
    ensures path[0] != path[|path| - 1]
  {
    hide IsRun, Chain, Inv;
    RunOrdered(r, i);
    ChainRises(r.states[i], path);
  }

  // ---------------------------------------------------------------- what a namespace can hold

  lemma BindHolds(s: State, c: int, src: int, dentry: int, x: int, parent: int, more: map<int, Mnt>, s': State)
    requires Inv(s) && Does(s, Bind(c, src, dentry, x, parent, more), s') && dentry in s.files
    ensures Holds(s', c, s.files[dentry])
  {
    assert x !in more && s'.mounts[x] == Mnt(c, dentry, parent);
  }

  lemma BindNeedsOlder(s: State, c: int, src: int, dentry: int, x: int, parent: int, more: map<int, Mnt>, s': State)
    requires Does(s, Bind(c, src, dentry, x, parent, more), s') && c in s.seqs && dentry in s.files && s.files[dentry] in s.seqs
    ensures s.seqs[c] < s.seqs[s.files[dentry]]
  {
    hide Fits, Up, Inside;
  }

  lemma OlderMayBind(s: State, c: int, src: int, dentry: int)
    requires Inv(s) && c in s.seqs && src in s.mounts && s.mounts[src].root == dentry && dentry in s.files
    ensures s.files[dentry] in s.seqs && (s.seqs[c] < s.seqs[s.files[dentry]] ==> MayBind(s, c, src, dentry))
  {
    hide TreesInOneNs, AllOrdered;
  }

  /** A file of namespace `n` can be bound in `c` if and only if `c` is the older one, and then `c` holds `n`. */
  lemma BindExact(s: State, c: int, src: int, dentry: int, x: int, parent: int)
    requires Inv(s) && c in s.seqs && src in s.mounts && s.mounts[src].root == dentry && dentry in s.files && x !in s.mounts
    requires parent in s.mounts && s.mounts[parent].ns == c
    ensures var n, step := s.files[dentry], Bind(c, src, dentry, x, parent, map[]);
      && n in s.seqs && ((exists s' :: Does(s, step, s')) <==> s.seqs[c] < s.seqs[n])
      && forall s' {:trigger Does(s, step, s')} :: Does(s, step, s') ==> Holds(s', c, n)
  {
    hide Inv, Does, Holds, MayBind;
    OlderMayBind(s, c, src, dentry);
    var n, step := s.files[dentry], Bind(c, src, dentry, x, parent, map[]);
    if s.seqs[c] < s.seqs[n] { AddBind(s, c, src, dentry, x, parent); }
    forall s' {:trigger Does(s, step, s')} | Does(s, step, s') ensures Holds(s', c, n) && s.seqs[c] < s.seqs[n] {
      BindHolds(s, c, src, dentry, x, parent, map[], s');
      BindNeedsOlder(s, c, src, dentry, x, parent, map[], s');
    }
  }

  lemma MountStays(s: State, step: Step, s': State, m: int)
    requires Does(s, step, s') && !step.Remove? && m in s.mounts
    ensures m in s'.mounts && s'.mounts[m].ns == s.mounts[m].ns && s'.mounts[m].root == s.mounts[m].root
  {
    hide Up, Inside, NoFiles, InNs, Hung, MayBind, CopiesOf, KeptBelow;
  }

  /** Only unmounting makes a namespace let go of another. */
  lemma HoldsStays(s: State, step: Step, s': State, a: int, b: int)
    requires Does(s, step, s') && !step.Remove? && Holds(s, a, b)
    ensures Holds(s', a, b)
  {
    hide Up, Inside, NoFiles, InNs, Hung, MayBind, CopiesOf, KeptBelow, Fits;
    var m :| m in s.mounts && s.mounts[m].ns == a && IsFile(s, s.mounts[m].root) && s.files[s.mounts[m].root] == b;
    MountStays(s, step, s', m);
    assert s'.mounts[m].root in s'.files;
  }

  /** What a step mounts. */
  ghost function Mounted(step: Step): set<int> {
    match step
    case NewNs(_, more) => more.Keys
    case NewFile(_, _, x) => {x}
    case NewOther(_, x) => {x}
    case NewMount(_, more) => more.Keys
    case Bind(_, _, _, x, _, more) => {x} + more.Keys
    case BindTree(_, _, _, _, tree, more) => tree.Keys + more.Keys
    case Move(_, _, _, more) => more.Keys
    case Remove(_) => {}
  }

  /** Exactly what a step mounts appears, and exactly what it unmounts goes. */
  lemma MountsAfter(s: State, step: Step, s': State)
    requires Does(s, step, s')
    ensures s'.mounts.Keys == s.mounts.Keys - (if step.Remove? then step.gone else {}) + Mounted(step)
  {
    hide Up, Inside, NoFiles, InNs, Hung, MayBind, CopiesOf, KeptBelow, Fits;
  }

  /** After unmounting, a namespace holds another if and only if one of its mounts of the other's file is left. */
  lemma RemoveExact(s: State, gone: set<int>, s': State, a: int, b: int)
    requires Does(s, Remove(gone), s')
    ensures Holds(s', a, b) <==> a in s.seqs && exists m {:trigger s.mounts[m]} ::
      m in s.mounts && m !in gone && s.mounts[m].ns == a && IsFile(s, s.mounts[m].root) && s.files[s.mounts[m].root] == b
  {
    hide Up, Inside;
    assert s'.mounts == s.mounts - gone;
    forall m {:trigger s.mounts[m]} ensures m in s'.mounts <==> m in s.mounts && m !in gone {
    }
    forall m {:trigger s.mounts[m]} | m in s'.mounts ensures s'.mounts[m] == s.mounts[m] {
    }
    if Holds(s', a, b) {
      var m :| m in s'.mounts && s'.mounts[m].ns == a && IsFile(s', s'.mounts[m].root) && s'.files[s'.mounts[m].root] == b;
      assert s.mounts[m].root == s'.mounts[m].root;
    }
    if m :| m in s.mounts && m !in gone && s.mounts[m].ns == a && IsFile(s, s.mounts[m].root) && s.files[s.mounts[m].root] == b {
      assert s'.mounts[m].root == s.mounts[m].root;
    }
  }

  /** All parents but that of `x` are the same. */
  ghost predicate SameBut(up: map<int, int>, up': map<int, int>, x: int) {
    forall d {:trigger up[d]} :: d in up && d != x ==> d in up' && up'[d] == up[d]
  }

  /** Then what was below `x` still is. */
  lemma {:induction false} StillBelow(up: map<int, int>, up': map<int, int>, x: int, y: int, k: nat)
    requires Inside(up) && Inside(up') && SameBut(up, up', x) && x in up' && y in up && Climb(up, y, k) == x
    ensures y in up' && Above(up', x, y)
    decreases k
  {
    if y == x {
      AboveSelf(up', x);
    } else {
      assert up'[y] == up[y];
      StillBelow(up, up', x, up[y], k - 1);
      AboveStep(up', x, y);
    }
  }

  lemma MoveChangesOne(s: State, c: int, x: int, parent: int, more: map<int, Mnt>, s': State)
    requires Does(s, Move(c, x, parent, more), s') && s.mounts.Keys !! more.Keys
    ensures SameBut(Up(s), Up(s'), x) && x in Up(s') && Up(s')[x] == parent
  {
    hide Fits, NoFiles, Hung, Above, Inside;
    forall d {:trigger Up(s)[d]} | d in Up(s) && d != x ensures d in Up(s') && Up(s')[d] == Up(s)[d] {
      assert s'.mounts[d] == s.mounts[d];
    }
    assert s'.mounts[x].parent == parent;
  }

  /** A mount that is moved hangs at its new parent, with everything that was below it. */
  lemma MoveCarries(s: State, c: int, x: int, parent: int, more: map<int, Mnt>, s': State, y: int)
    requires Inv(s) && Does(s, Move(c, x, parent, more), s') && y in s.mounts && Inside(Up(s)) && Above(Up(s), x, y)
    ensures y in s'.mounts && Inside(Up(s')) && Above(Up(s'), parent, y)
  {
    hide Inv, Fits, Inside, NoFiles, Hung, Climb, SameBut, Up;
    InUp(s);
    var k: nat :| Climb(Up(s), y, k) == x;
    StepExact(s, Move(c, x, parent, more), s');
    InsideUp(s');
    FitsDisjoint(s, more);
    MoveChangesOne(s, c, x, parent, more, s');
    StillBelow(Up(s), Up(s'), x, y, k);
    AboveSelf(Up(s'), x);
    AboveTrans(Up(s'), parent, x, y);
    InUp(s');
  }

  // ---------------------------------------------------------------- a recursive bind that closes a cycle

  lemma FitsOne(s: State, x: int, m: Mnt)
    requires x !in s.mounts && (m.ns in s.seqs || m.ns == INTERNAL)
    requires m.parent == x || (m.parent in s.mounts && s.mounts[m.parent].ns == m.ns)
    ensures Fits(s, map[x := m])
  {
    var more := map[x := m];
    var all := s.mounts + more;
    assert m.parent != x ==> all[m.parent] == s.mounts[m.parent];
  }

  lemma NothingFits(s: State)
    ensures Fits(s, map[]) && Hung(map[]) && NoFiles(s, map[])
  {
  }

  lemma InsideUp(s: State)
    requires Inv(s)
    ensures Inside(Up(s))
  {
  }

  /** A namespace `n` with a plain root mount `x` is created. */
  ghost function WithNs(s: State, n: int, x: int): State {
    s.(seqs := s.seqs[n := s.last + 1], last := s.last + 1, mounts := s.mounts + map[x := Mnt(n, 0, x)])
  }

  lemma AddNs(s: State, n: int, x: int)
    requires Inv(s) && n !in s.seqs && n != INTERNAL && x !in s.mounts && 0 !in s.files
    ensures Does(s, NewNs(n, map[x := Mnt(n, 0, x)]), WithNs(s, n, x)) && Inv(WithNs(s, n, x))
  {
    hide Inv, Fits, Up, Inside;
    var step, s' := NewNs(n, map[x := Mnt(n, 0, x)]), WithNs(s, n, x);
    InsideUp(s);
    FitsOne(s.(seqs := s.seqs[n := s.last + 1], last := s.last + 1), x, Mnt(n, 0, x));
    assert Does(s, step, s');
    StepExact(s, step, s');
  }

  ghost function WithFile(s: State, dentry: int, n: int, x: int): State {
    s.(files := s.files[dentry := n], mounts := s.mounts[x := Mnt(INTERNAL, dentry, x)])
  }

  lemma AddFile(s: State, dentry: int, n: int, x: int)
    requires Inv(s) && n in s.seqs && dentry !in s.files && dentry !in s.others && x !in s.mounts
    requires forall m {:trigger s.mounts[m]} :: m in s.mounts ==> s.mounts[m].root != dentry
    ensures Does(s, NewFile(dentry, n, x), WithFile(s, dentry, n, x)) && Inv(WithFile(s, dentry, n, x))
  {
    hide Inv, Up, Inside;
    InsideUp(s);
    StepExact(s, NewFile(dentry, n, x), WithFile(s, dentry, n, x));
  }

  ghost function WithBind(s: State, c: int, dentry: int, x: int, parent: int): State {
    s.(mounts := s.mounts + map[x := Mnt(c, dentry, parent)] + map[])
  }

  lemma AddBind(s: State, c: int, src: int, dentry: int, x: int, parent: int)
    requires Inv(s) && MayBind(s, c, src, dentry) && parent in s.mounts && s.mounts[parent].ns == c && x !in s.mounts
    ensures Does(s, Bind(c, src, dentry, x, parent, map[]), WithBind(s, c, dentry, x, parent)) && Inv(WithBind(s, c, dentry, x, parent))
  {
    hide Inv, Up, Inside, Fits;
    var step, s' := Bind(c, src, dentry, x, parent, map[]), WithBind(s, c, dentry, x, parent);
    InsideUp(s);
    FitsOne(s, x, Mnt(c, dentry, parent));
    NothingFits(s);
    assert Does(s, step, s');
    StepExact(s, step, s');
  }

  /** Three namespaces, each with a root mount. */
  ghost function Three(): State {
    State(map[1 := 2, 2 := 3, 3 := 4], 4, map[10 := Mnt(1, 0, 10), 20 := Mnt(2, 0, 20), 40 := Mnt(3, 0, 40)], map[], {})
  }

  /** There are files of the second and the third. */
  ghost function WithFiles(): State {
    WithFile(WithFile(Three(), 102, 2, 50), 103, 3, 51)
  }

  /** The first has the third's file mounted, and the second's file on top of that. */
  ghost function Stacked(): State {
    WithBind(WithBind(WithFiles(), 1, 103, 11, 10), 1, 102, 12, 11)
  }

  ghost function RunToStacked(): Run {
    var s0 := State(map[], 1, map[], map[], {});
    Run([s0, WithNs(s0, 1, 10), WithNs(WithNs(s0, 1, 10), 2, 20), Three(), WithFile(Three(), 102, 2, 50), WithFiles(),
         WithBind(WithFiles(), 1, 103, 11, 10), Stacked()],
        [NewNs(1, map[10 := Mnt(1, 0, 10)]), NewNs(2, map[20 := Mnt(2, 0, 20)]), NewNs(3, map[40 := Mnt(3, 0, 40)]),
         NewFile(102, 2, 50), NewFile(103, 3, 51), Bind(1, 51, 103, 11, 10, map[]), Bind(1, 50, 102, 12, 11, map[])])
  }

  lemma ToThree()
    ensures var s0 := State(map[], 1, map[], map[], {}); var s1 := WithNs(s0, 1, 10); var s2 := WithNs(s1, 2, 20);
      && Does(s0, NewNs(1, map[10 := Mnt(1, 0, 10)]), s1) && Does(s1, NewNs(2, map[20 := Mnt(2, 0, 20)]), s2)
      && Does(s2, NewNs(3, map[40 := Mnt(3, 0, 40)]), Three()) && Inv(Three())
  {
    hide Inv, Does;
    var s0 := State(map[], 1, map[], map[], {});
    var s1 := WithNs(s0, 1, 10);
    var s2 := WithNs(s1, 2, 20);
    EmptyOrdered();
    AddNs(s0, 1, 10);
    AddNs(s1, 2, 20);
    AddNs(s2, 3, 40);
    assert WithNs(s2, 3, 40).seqs == Three().seqs;
    assert WithNs(s2, 3, 40).mounts == Three().mounts;
  }

  lemma ToFiles()
    ensures var s4 := WithFile(Three(), 102, 2, 50);
      Does(Three(), NewFile(102, 2, 50), s4) && Does(s4, NewFile(103, 3, 51), WithFiles()) && Inv(WithFiles())
  {
    hide Inv, Does;
    ToThree();
    AddFile(Three(), 102, 2, 50);
    AddFile(WithFile(Three(), 102, 2, 50), 103, 3, 51);
  }

  lemma ToStacked()
    ensures var s6 := WithBind(WithFiles(), 1, 103, 11, 10);
      Does(WithFiles(), Bind(1, 51, 103, 11, 10, map[]), s6) && Does(s6, Bind(1, 50, 102, 12, 11, map[]), Stacked()) && Inv(Stacked())
  {
    hide Inv, Does;
    ToFiles();
    AddBind(WithFiles(), 1, 51, 103, 11, 10);
    AddBind(WithBind(WithFiles(), 1, 103, 11, 10), 1, 50, 102, 12, 11);
  }

  lemma RunsToStacked()
    ensures IsRun(RunToStacked())
  {
    hide Does, Three, WithNs, WithFile, WithFiles, WithBind, Stacked;
    ToThree();
    ToFiles();
    ToStacked();
    var r := RunToStacked();
    forall i: nat | i < |r.steps| ensures Follows(r, i) {
      if i == 0 { assert Follows(r, 0); }
      else if i == 1 { assert Follows(r, 1); }
      else if i == 2 { assert Follows(r, 2); }
      else if i == 3 { assert Follows(r, 3); }
      else if i == 4 { assert Follows(r, 4); }
      else if i == 5 { assert Follows(r, 5); }
      else { assert Follows(r, 6); }
    }
  }

  ghost function StackedCopy(): map<int, Mnt> { map[30 := Mnt(2, 103, 20), 31 := Mnt(2, 102, 30)] }

  lemma WithFilesIs()
    ensures var s := WithFiles();
      && s.seqs == map[1 := 2, 2 := 3, 3 := 4] && s.files == map[102 := 2, 103 := 3]
      && s.mounts.Keys == {10, 20, 40, 50, 51} && s.mounts[20] == Mnt(2, 0, 20)
  {
  }

  lemma StackedIs()
    ensures var s := Stacked();
      && s.seqs == map[1 := 2, 2 := 3, 3 := 4] && s.files == map[102 := 2, 103 := 3]
      && s.mounts.Keys == {10, 11, 12, 20, 40, 50, 51}
      && s.mounts[20] == Mnt(2, 0, 20) && s.mounts[11] == Mnt(1, 103, 10) && s.mounts[12] == Mnt(1, 102, 11)
  {
    hide WithFiles;
    WithFilesIs();
  }

  lemma StackedFits()
    ensures Fits(Stacked(), StackedCopy()) && Hung(StackedCopy()) && InNs(StackedCopy(), 2) && MayBind(Stacked(), 2, 11, 103)
  {
    hide Stacked;
    StackedIs();
    var s, tree := Stacked(), StackedCopy();
    assert tree.Keys == {30, 31};
    assert (s.mounts + tree)[20] == s.mounts[20] && (s.mounts + tree)[30] == tree[30];
  }

  lemma StackedCopies()
    requires Inside(Up(Stacked()))
    ensures KeptBelow(Stacked(), 11, {12}) && CopiesOf(Stacked(), StackedCopy(), 103, {12})
  {
    hide Inside, Stacked;
    StackedIs();
    var s, tree := Stacked(), StackedCopy();
    assert Up(s)[12] == 11;
    assert Climb(Up(s), 12, 1) == Climb(Up(s), 11, 0) == 11;
    assert tree[31].root == 102 && tree.Keys == {30, 31};
    assert HasRoot(tree, 102);
  }

  lemma StackedHolds(s': State)
    requires s' == Stacked().(mounts := Stacked().mounts + StackedCopy() + map[])
    ensures Holds(s', 2, 2)
  {
    hide Stacked;
    StackedIs();
    assert s'.mounts[31] == Mnt(2, 102, 30) && s'.seqs[2] == 3 && s'.files[102] == 2;
  }

  /**
   The test looks at the root of a tree only. After a run of ordinary steps a recursive bind, by a task of namespace 2, of a
   file mounted in namespace 1 brings along what is mounted on it there: the file of namespace 2 itself.
   */
  lemma ForeignTreeClosesCycle() returns (r: Run, step: Step, s': State)
    ensures IsRun(r) && |r.states| > 0 && Does(r.states[|r.states| - 1], step, s')
    ensures step.BindTree? && !Holds(r.states[|r.states| - 1], 2, 2) && Holds(s', 2, 2)
  {
    hide WithBind, WithFile, WithFiles, WithNs, Three, Inv, Inside, Up, Fits, InNs, Hung, MayBind, KeptBelow, CopiesOf,
      StackedCopy, IsRun, Holds, Stacked;
    r := RunToStacked();
    var s := Stacked();
    step := BindTree(2, 11, 103, {12}, StackedCopy(), map[]);
    s' := s.(mounts := s.mounts + StackedCopy() + map[]);
    RunsToStacked();
    ToStacked();
    InsideUp(s);
    StackedFits();
    StackedCopies();
    NothingFits(s);
    StackedHolds(s');
    if Holds(s, 2, 2) {
      HoldsYounger(s, 2, 2);
      assert false;
    }
  }
}
