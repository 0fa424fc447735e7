/**
 Directory operations as a protocol: any number of tasks create, link, unlink, rmdir and rename on one
 tree, taking the locks of directories and files and the rename mutex in the order the kernel does.
 */
module DirLocks {
  import opened DirTree

  datatype Lock = DirLock(d: int) | FileLock(f: int) | RenameMutex

  datatype Want = Nothing | Wants(lock: Lock)

  /** What a task is doing: an operation in one directory, a rename from `p2` to `p1`, or dropping its locks. */
  datatype Op = Idle | OneDir(dir: int) | TwoDirs(p1: int, p2: int, first: int) | Leaving

  datatype Task = Task(op: Op, held: set<Lock>, want: Want)

  /** Parents of directories, and every task. */
  datatype State = State(up: map<int, int>, tasks: map<int, Task>)

  ghost predicate Init(s: State) {
    s.tasks == map[] && exists r :: s.up == map[r := r]
  }

  /** d_ancestor(a, d) */
  ghost predicate Ancestor(up: map<int, int>, a: int, d: int)
    requires Forest(up) && d in up
  {
    d != up[d] && Above(up, a, up[d])
  }

  /** The directory lock_rename takes first. */
  ghost function First(up: map<int, int>, p1: int, p2: int): int
    requires Forest(up) && p1 in up && p2 in up
  {
    if Ancestor(up, p2, p1) then p2 else p1
  }

  ghost function Second(op: Op): int
    requires op.TwoDirs?
  {
    if op.first == op.p1 then op.p2 else op.p1
  }

  ghost predicate Free(s: State, l: Lock) {
    forall u {:trigger s.tasks[u]} :: u in s.tasks ==> l !in s.tasks[u].held
  }

  ghost predicate HoldsFile(held: set<Lock>, f: int) { FileLock(f) in held }

  datatype Step =
    | Spawn(t: int)
    | EnterDir(t: int, dir: int)                     // filename_create, do_rmdir, do_unlinkat, lock_rename with one directory
    | EnterRename(t: int, p1: int, p2: int)          // lock_rename with two
    | Acquire(t: int)
    | ChooseFirst(t: int)                            // with the mutex held
    | ChooseSecond(t: int)
    | WantVictim(t: int, c: int)                     // vfs_rmdir, vfs_rename inside one directory
    | WantTarget(t: int, c: int)                     // vfs_rename between two
    | WantFile(t: int, f: int)                       // vfs_unlink, vfs_link, lock_two_nondirectories
    | MakeDir(t: int, c: int)
    | MoveDir(t: int, c: int)                        // the source is a directory, the target is not
    | MoveBack(t: int, c: int)                       // exchange of a file with a directory
    | SwapDirs(t: int, c: int, d: int)
    | Unlock(t: int, l: Lock)
    | Finish(t: int)

  ghost function With(s: State, t: int, k: Task): State {
    s.(tasks := s.tasks[t := k])
  }

  ghost predicate HasBoth(k: Task) {
    k.op.TwoDirs? && k.want.Nothing? && RenameMutex in k.held && DirLock(k.op.p1) in k.held && DirLock(k.op.p2) in k.held
  }

  ghost predicate Does(s: State, step: Step, s': State)
    requires Forest(s.up)
  {
    match step
    case Spawn(t) => t !in s.tasks && s' == With(s, t, Task(Idle, {}, Nothing))
    case EnterDir(t, dir) =>
      && t in s.tasks && s.tasks[t].op.Idle? && dir in s.up
      && s' == With(s, t, Task(OneDir(dir), {}, Wants(DirLock(dir))))
    case EnterRename(t, p1, p2) =>
      && t in s.tasks && s.tasks[t].op.Idle? && p1 in s.up && p2 in s.up && p1 != p2
      && s' == With(s, t, Task(TwoDirs(p1, p2, p1), {}, Wants(RenameMutex)))
    case Acquire(t) =>
      && t in s.tasks && s.tasks[t].want.Wants? && Free(s, s.tasks[t].want.lock)
      && s' == With(s, t, s.tasks[t].(held := s.tasks[t].held + {s.tasks[t].want.lock}, want := Nothing))
    case ChooseFirst(t) =>
      && t in s.tasks && s.tasks[t].op.TwoDirs? && s.tasks[t].held == {RenameMutex} && s.tasks[t].want.Nothing?
      && var k := s.tasks[t];
         && k.op.p1 in s.up && k.op.p2 in s.up
         && var first := First(s.up, k.op.p1, k.op.p2);
            s' == With(s, t, k.(op := TwoDirs(k.op.p1, k.op.p2, first), want := Wants(DirLock(first))))
    case ChooseSecond(t) =>
      && t in s.tasks && s.tasks[t].op.TwoDirs? && s.tasks[t].want.Nothing?
      && s.tasks[t].held == {RenameMutex, DirLock(s.tasks[t].op.first)}
      && s' == With(s, t, s.tasks[t].(want := Wants(DirLock(Second(s.tasks[t].op)))))
    case WantVictim(t, c) =>
      && t in s.tasks && s.tasks[t].op.OneDir? && s.tasks[t].held == {DirLock(s.tasks[t].op.dir)} && s.tasks[t].want.Nothing?
      && c in s.up && c != s.tasks[t].op.dir && s.up[c] == s.tasks[t].op.dir
      && s' == With(s, t, s.tasks[t].(want := Wants(DirLock(c))))
    case WantTarget(t, c) =>
      && t in s.tasks && HasBoth(s.tasks[t])
      && s.tasks[t].held == {RenameMutex, DirLock(s.tasks[t].op.p1), DirLock(s.tasks[t].op.p2)}
      && c in s.up && c != s.tasks[t].op.p1 && s.up[c] == s.tasks[t].op.p1
      && s.tasks[t].op.p2 in s.up && !Above(s.up, c, s.tasks[t].op.p2)
      && s' == With(s, t, s.tasks[t].(want := Wants(DirLock(c))))
    case WantFile(t, f) =>
      && t in s.tasks && s.tasks[t].want.Nothing?
      && (HasBoth(s.tasks[t]) || (s.tasks[t].op.OneDir? && DirLock(s.tasks[t].op.dir) in s.tasks[t].held))
      && (forall g {:trigger HoldsFile(s.tasks[t].held, g)} :: HoldsFile(s.tasks[t].held, g) ==> g < f)
      && s' == With(s, t, s.tasks[t].(want := Wants(FileLock(f))))
    case MakeDir(t, c) =>
      && t in s.tasks && s.tasks[t].op.OneDir? && DirLock(s.tasks[t].op.dir) in s.tasks[t].held && s.tasks[t].want.Nothing?
      && c !in s.up && s.tasks[t].op.dir in s.up
      && s' == s.(up := s.up[c := s.tasks[t].op.dir])
    case MoveDir(t, c) =>
      && t in s.tasks && HasBoth(s.tasks[t]) && s.tasks[t].op.p1 in s.up
      && c in s.up && s.up[c] == s.tasks[t].op.p2 != c && !Above(s.up, c, s.tasks[t].op.p1)
      && s' == s.(up := s.up[c := s.tasks[t].op.p1])
    case MoveBack(t, c) =>
      && t in s.tasks && HasBoth(s.tasks[t]) && s.tasks[t].op.p2 in s.up
      && c in s.up && s.up[c] == s.tasks[t].op.p1 != c && !Above(s.up, c, s.tasks[t].op.p2)
      && s' == s.(up := s.up[c := s.tasks[t].op.p2])
    case SwapDirs(t, c, d) =>
      && t in s.tasks && HasBoth(s.tasks[t]) && s.tasks[t].op.p1 in s.up && s.tasks[t].op.p2 in s.up
      && c in s.up && s.up[c] == s.tasks[t].op.p2 != c && !Above(s.up, c, s.tasks[t].op.p1)
      && d in s.up && s.up[d] == s.tasks[t].op.p1 != d && !Above(s.up, d, s.tasks[t].op.p2) && c != d
      && s' == s.(up := Swapped(s.up, c, d))
    case Unlock(t, l) =>
      && t in s.tasks && l in s.tasks[t].held && s.tasks[t].want.Nothing?
      && s' == With(s, t, Task(Leaving, s.tasks[t].held - {l}, Nothing))
    case Finish(t) =>
      && t in s.tasks && s.tasks[t].op.Leaving? && s.tasks[t].held == {}
      && s' == With(s, t, Task(Idle, {}, Nothing))
  }

  ghost predicate Next(s: State, s': State) {
    Forest(s.up) && exists step :: Does(s, step, s')
  }

  // ---------------------------------------------------------------- the invariant

  /** A task that wants a directory holds nothing, or just the parent, or the mutex and no directory at or below the one it wants. */
  ghost predicate WantsDown(up: map<int, int>, k: Task)
    requires Inside(up)
  {
    k.want.Wants? && k.want.lock.DirLock? ==>
      var x := k.want.lock.d;
      && x in up
      && ( || k.held == {}
           || (exists d :: k.held == {DirLock(d)} && up[x] == d && x != d)
           || (RenameMutex in k.held && forall h {:trigger DirLock(h) in k.held} :: DirLock(h) in k.held ==> h in up && !Above(up, x, h)))
  }

  /** Files come last and in ascending order, the mutex first. */
  ghost predicate InOrder(k: Task) {
    && (k.want.Wants? && k.want.lock.RenameMutex? ==> k.held == {})
    && (k.want.Wants? ==> k.want.lock !in k.held)
    && (forall f {:trigger HoldsFile(k.held, f)} :: HoldsFile(k.held, f) && k.want.Wants? ==> k.want.lock.FileLock? && f < k.want.lock.f)
  }

  /** The operation a task is in names directories that exist, and the mutex goes with renames. */
  ghost predicate OpSane(up: map<int, int>, k: Task)
    requires Forest(up)
  {
    && (k.op.Idle? || k.op.Leaving? ==> k.want.Nothing?)
    && (k.op.Idle? ==> k.held == {})
    && (k.op.OneDir? || k.op.TwoDirs? ==> k.want.Wants? || k.held != {})
    && (k.op.OneDir? ==> k.op.dir in up && RenameMutex !in k.held && k.want != Wants(RenameMutex))
    && (k.op.TwoDirs? ==>
         && k.op.p1 in up && k.op.p2 in up && k.op.p1 != k.op.p2 && (k.op.first == k.op.p1 || k.op.first == k.op.p2)
         && (k.want == Wants(DirLock(k.op.first)) ==> k.held == {RenameMutex})
         && (k.want == Wants(DirLock(k.op.first)) || k.held == {RenameMutex, DirLock(k.op.first)} ==>
               !Above(up, Second(k.op), k.op.first)))
  }

  ghost predicate Exclusive(s: State) {
    forall t, u {:trigger s.tasks[t], s.tasks[u]} :: t in s.tasks && u in s.tasks && t != u ==> s.tasks[t].held !! s.tasks[u].held
  }

  ghost predicate Sane(up: map<int, int>, k: Task)
    requires Forest(up)
  {
    WantsDown(up, k) && InOrder(k) && OpSane(up, k)
  }

  ghost predicate Inv(s: State) {
    && Forest(s.up) && Exclusive(s)
    && forall t {:trigger s.tasks[t]} :: t in s.tasks ==> Sane(s.up, s.tasks[t])
  }

  // ---------------------------------------------------------------- every step keeps it

  lemma WithInv(s: State, t: int, k: Task)
    requires Inv(s) && Sane(s.up, k)
    requires forall u {:trigger s.tasks[u]} :: u in s.tasks && u != t ==> k.held !! s.tasks[u].held
    ensures Inv(With(s, t, k))
  {
    hide Forest, Sane;
    var s' := With(s, t, k);
    forall u | u in s'.tasks ensures Sane(s'.up, s'.tasks[u]) {
      if u != t { assert s'.tasks[u] == s.tasks[u]; }
    }
    forall u, v | u in s'.tasks && v in s'.tasks && u != v ensures s'.tasks[u].held !! s'.tasks[v].held {
      if u != t { assert s'.tasks[u] == s.tasks[u]; }
      if v != t { assert s'.tasks[v] == s.tasks[v]; }
    }
  }

  /** A task is as it was except for what it wants or holds less. */
  lemma SameOrLess(s: State, t: int, k: Task)
    requires Inv(s) && t in s.tasks && Sane(s.up, k) && k.held <= s.tasks[t].held
    ensures Inv(With(s, t, k))
  {
    hide Forest, Sane;
    forall u {:trigger s.tasks[u]} | u in s.tasks && u != t ensures k.held !! s.tasks[u].held {
      assert s.tasks[t].held !! s.tasks[u].held;
    }
    WithInv(s, t, k);
  }

  lemma AcquireKeeps(s: State, t: int)
    requires Inv(s) && t in s.tasks && s.tasks[t].want.Wants? && Free(s, s.tasks[t].want.lock)
    ensures Inv(With(s, t, s.tasks[t].(held := s.tasks[t].held + {s.tasks[t].want.lock}, want := Nothing)))
  {
    hide Forest, Above;
    var k := s.tasks[t];
    var k' := k.(held := k.held + {k.want.lock}, want := Nothing);
    assert Sane(s.up, k);
    AcquireSane(s.up, k);
    forall u {:trigger s.tasks[u]} | u in s.tasks && u != t ensures k'.held !! s.tasks[u].held {
      assert s.tasks[t].held !! s.tasks[u].held;
    }
    WithInv(s, t, k');
  }

  lemma AcquireSane(up: map<int, int>, k: Task)
    requires Forest(up) && Sane(up, k) && k.want.Wants?
    ensures Sane(up, k.(held := k.held + {k.want.lock}, want := Nothing))
  {
    hide Forest, Above;
  }

  lemma ChooseFirstKeeps(s: State, t: int)
    requires Inv(s) && t in s.tasks && s.tasks[t].op.TwoDirs? && s.tasks[t].held == {RenameMutex} && s.tasks[t].want.Nothing?
    requires s.tasks[t].op.p1 in s.up && s.tasks[t].op.p2 in s.up
    ensures var k := s.tasks[t]; var first := First(s.up, k.op.p1, k.op.p2);
      Inv(With(s, t, k.(op := TwoDirs(k.op.p1, k.op.p2, first), want := Wants(DirLock(first)))))
  {
    hide Above, Climb, Ends;
    var k := s.tasks[t];
    assert Sane(s.up, k);
    var p1, p2 := k.op.p1, k.op.p2;
    var first := First(s.up, p1, p2);
    var k' := k.(op := TwoDirs(p1, p2, first), want := Wants(DirLock(first)));
    FirstIsNotBelow(s.up, p1, p2);
    assert Sane(s.up, k');
    SameOrLess(s, t, k');
  }

  /** lock_rename never takes a directory before one above it. */
  lemma FirstIsNotBelow(up: map<int, int>, p1: int, p2: int)
    requires Forest(up) && p1 in up && p2 in up && p1 != p2
    ensures var first := First(up, p1, p2); !Above(up, if first == p1 then p2 else p1, first)
  {
    hide Above, Climb, Ends;
    AboveStep(up, p2, p1);
    if up[p1] == p1 { AboveRoot(up, p2, p1); }
    if Ancestor(up, p2, p1) && Above(up, p1, p2) {
      AboveBoth(up, p1, p2);
    }
  }

  lemma ChooseSecondKeeps(s: State, t: int)
    requires Inv(s) && t in s.tasks && s.tasks[t].op.TwoDirs? && s.tasks[t].want.Nothing?
    requires s.tasks[t].held == {RenameMutex, DirLock(s.tasks[t].op.first)}
    ensures Inv(With(s, t, s.tasks[t].(want := Wants(DirLock(Second(s.tasks[t].op))))))
  {
    hide Forest, Above;
    var k := s.tasks[t];
    assert Sane(s.up, k);
    var k' := k.(want := Wants(DirLock(Second(k.op))));
    assert Sane(s.up, k');
    SameOrLess(s, t, k');
  }

  lemma WantVictimKeeps(s: State, t: int, c: int)
    requires Inv(s) && t in s.tasks && s.tasks[t].op.OneDir? && s.tasks[t].held == {DirLock(s.tasks[t].op.dir)} && s.tasks[t].want.Nothing?
    requires c in s.up && c != s.tasks[t].op.dir && s.up[c] == s.tasks[t].op.dir
    ensures Inv(With(s, t, s.tasks[t].(want := Wants(DirLock(c)))))
  {
    hide Forest, Above;
    var k := s.tasks[t];
    assert Sane(s.up, k);
    var k' := k.(want := Wants(DirLock(c)));
    assert Sane(s.up, k');
    SameOrLess(s, t, k');
  }

  lemma WantTargetKeeps(s: State, t: int, c: int)
    requires Inv(s) && t in s.tasks && HasBoth(s.tasks[t])
    requires s.tasks[t].held == {RenameMutex, DirLock(s.tasks[t].op.p1), DirLock(s.tasks[t].op.p2)}
    requires c in s.up && c != s.tasks[t].op.p1 && s.up[c] == s.tasks[t].op.p1
    requires s.tasks[t].op.p2 in s.up && !Above(s.up, c, s.tasks[t].op.p2)
    ensures Inv(With(s, t, s.tasks[t].(want := Wants(DirLock(c)))))
  {
    hide Above, Climb, Ends;
    var k := s.tasks[t];
    assert Sane(s.up, k);
    var k' := k.(want := Wants(DirLock(c)));
    NotAboveParent(s.up, c);
    AboveSelf(s.up, k.op.p2);
    assert Sane(s.up, k');
    SameOrLess(s, t, k');
  }

  lemma WantFileKeeps(s: State, t: int, f: int)
    requires Inv(s) && t in s.tasks && s.tasks[t].want.Nothing? && !s.tasks[t].op.Idle? && !s.tasks[t].op.Leaving?
    requires HasBoth(s.tasks[t]) || (s.tasks[t].op.OneDir? && DirLock(s.tasks[t].op.dir) in s.tasks[t].held)
    requires forall g {:trigger HoldsFile(s.tasks[t].held, g)} :: HoldsFile(s.tasks[t].held, g) ==> g < f
    ensures Inv(With(s, t, s.tasks[t].(want := Wants(FileLock(f)))))
  {
    hide Forest, Above;
    var k := s.tasks[t];
    assert Sane(s.up, k);
    var k' := k.(want := Wants(FileLock(f)));
    assert FileLock(f) in k.held ==> HoldsFile(k.held, f);
    assert Sane(s.up, k');
    SameOrLess(s, t, k');
  }

  lemma MakeDirKeeps(s: State, c: int, p: int)
    requires Inv(s) && c !in s.up && p in s.up
    ensures Inv(s.(up := s.up[c := p]))
  {
    hide Above, Climb, Ends;
    LeafKeepsForest(s.up, c, p);
    forall u {:trigger s.tasks[u]} | u in s.tasks ensures Sane(s.up[c := p], s.tasks[u]) {
      assert Sane(s.up, s.tasks[u]);
    }
  }

  /** A rename changes the parents of children of its two directories only. */
  ghost predicate OnlyChildrenMove(up: map<int, int>, up': map<int, int>, p1: int, p2: int) {
    up.Keys == up'.Keys && forall x {:trigger up'[x]} :: x in up && up[x] != p1 && up[x] != p2 ==> up'[x] == up[x]
  }

  lemma OthersUnmoved(up: map<int, int>, up': map<int, int>, p1: int, p2: int, k: Task)
    requires Forest(up) && Forest(up') && OnlyChildrenMove(up, up', p1, p2) && Sane(up, k)
    requires RenameMutex !in k.held && DirLock(p1) !in k.held && DirLock(p2) !in k.held
    ensures Sane(up', k)
  {
    hide Forest, Above;
    if k.want.Wants? && k.want.lock.DirLock? && k.held != {} {
      var d :| k.held == {DirLock(d)} && up[k.want.lock.d] == d && k.want.lock.d != d;
      assert DirLock(d) in k.held;
    }
  }

  lemma MoverSane(up: map<int, int>, up': map<int, int>, k: Task)
    requires Forest(up) && Forest(up') && up.Keys == up'.Keys && Sane(up, k) && HasBoth(k)
    ensures Sane(up', k)
  {
    hide Forest, Above;
    assert DirLock(Second(k.op)) in k.held;
    assert DirLock(Second(k.op)) !in {RenameMutex, DirLock(k.op.first)};
  }

  lemma RenameKeeps(s: State, t: int, up': map<int, int>)
    requires Inv(s) && t in s.tasks && HasBoth(s.tasks[t]) && Forest(up')
    requires OnlyChildrenMove(s.up, up', s.tasks[t].op.p1, s.tasks[t].op.p2)
    ensures Inv(s.(up := up'))
  {
    hide Forest, Sane, OnlyChildrenMove;
    var k := s.tasks[t];
    KeysKept(s.up, up', k.op.p1, k.op.p2);
    forall u {:trigger s.tasks[u]} | u in s.tasks ensures Sane(up', s.tasks[u]) {
      if u == t {
        MoverSane(s.up, up', k);
      } else {
        assert k.held !! s.tasks[u].held;
        OthersUnmoved(s.up, up', k.op.p1, k.op.p2, s.tasks[u]);
      }
    }
  }

  lemma KeysKept(up: map<int, int>, up': map<int, int>, p1: int, p2: int)
    requires OnlyChildrenMove(up, up', p1, p2)
    ensures up.Keys == up'.Keys
  {
  }

  // ---------------------------------------------------------------- no deadlock

  /** `t` waits for a lock that `u` holds. */
  ghost predicate WaitsFor(s: State, t: int, u: int) {
    t in s.tasks && u in s.tasks && s.tasks[t].want.Wants? && s.tasks[t].want.lock in s.tasks[u].held
  }

  ghost predicate Stuck(s: State, D: set<int>, t: int) {
    exists u :: u in D && WaitsFor(s, t, u)
  }

  /** Everyone in `D` waits for someone in `D`. */
  ghost predicate Deadlocked(s: State, D: set<int>) {
    D != {} && forall t {:trigger Stuck(s, D, t)} :: t in D ==> Stuck(s, D, t)
  }

  ghost function FilesAbove(s: State, D: set<int>, f: int): set<int>
    requires forall t :: t in D ==> t in s.tasks
  {
    set t | t in D && s.tasks[t].want.Wants? && s.tasks[t].want.lock.FileLock? && s.tasks[t].want.lock.f > f
  }

  lemma Holder(s: State, D: set<int>, t: int) returns (u: int)
    requires Inv(s) && Deadlocked(s, D) && t in D
    ensures u in D && WaitsFor(s, t, u) && u != t && s.tasks[u].want.Wants?
    ensures Sane(s.up, s.tasks[t]) && Sane(s.up, s.tasks[u])
  {
    hide Forest, WantsDown, OpSane;
    assert Stuck(s, D, t);
    u :| u in D && WaitsFor(s, t, u);
    assert Stuck(s, D, u);
    var v :| v in D && WaitsFor(s, u, v);
  }

  lemma AllTasks(s: State, D: set<int>)
    requires Deadlocked(s, D)
    ensures forall t :: t in D ==> t in s.tasks
  {
    forall t | t in D ensures t in s.tasks { assert Stuck(s, D, t); }
  }

  /** Nobody in a deadlock wants a file: whoever holds it wants a file with a higher address. */
  lemma {:induction false} NoFileWanted(s: State, D: set<int>, t: int)
    requires Inv(s) && Deadlocked(s, D) && t in D && t in s.tasks && (forall t :: t in D ==> t in s.tasks)
    requires s.tasks[t].want.Wants? && s.tasks[t].want.lock.FileLock?
    ensures false
    decreases FilesAbove(s, D, s.tasks[t].want.lock.f)
  {
    hide Forest, WantsDown, OpSane, Deadlocked, Inv;
    var u := Holder(s, D, t);
    var f := s.tasks[t].want.lock.f;
    assert HoldsFile(s.tasks[u].held, f);
    var g := s.tasks[u].want.lock.f;
    assert u in FilesAbove(s, D, f) && u !in FilesAbove(s, D, g);
    assert FilesAbove(s, D, g) <= FilesAbove(s, D, f);
    NoFileWanted(s, D, u);
  }

  /** Everything at or below `x`. */
  ghost function Subtree(up: map<int, int>, x: int): set<int>
    requires Inside(up)
  {
    set d | d in up && Above(up, x, d)
  }

  lemma SubtreeShrinks(up: map<int, int>, x: int)
    requires Forest(up) && x in up && up[x] != x
    ensures up[x] in up && Subtree(up, x) < Subtree(up, up[x])
  {
    hide Above, Climb, Ends;
    var d := up[x];
    AboveSelf(up, x);
    AboveSelf(up, d);
    NotAboveParent(up, x);
    forall y | y in Subtree(up, x) ensures y in Subtree(up, d) {
      AboveTrans(up, d, x, y);
    }
    assert d in Subtree(up, d) && d !in Subtree(up, x);
  }

  /** A rename that holds the mutex, and a directory `h` it holds. */
  ghost predicate Renamer(s: State, u: int, h: int) {
    u in s.tasks && RenameMutex in s.tasks[u].held && DirLock(h) in s.tasks[u].held && h in s.up
  }

  /** Below a directory that someone in the deadlock wants there is one that a rename in the deadlock holds. */
  lemma {:induction false} LeadsToRename(s: State, D: set<int>, t: int) returns (u: int, h: int)
    requires Inv(s) && Deadlocked(s, D) && t in D && t in s.tasks && (forall t :: t in D ==> t in s.tasks)
    requires s.tasks[t].want.Wants? && s.tasks[t].want.lock.DirLock? && s.tasks[t].want.lock.d in s.up
    ensures Forest(s.up) && u in D && Renamer(s, u, h) && Above(s.up, s.tasks[t].want.lock.d, h)
    decreases Subtree(s.up, s.tasks[t].want.lock.d)
  {
    hide Above, Climb, Ends, Deadlocked, OpSane;
    var x := s.tasks[t].want.lock.d;
    u := Holder(s, D, t);
    var k := s.tasks[u];
    assert DirLock(x) in k.held;
    if k.want.lock.FileLock? { NoFileWanted(s, D, u); }
    var y := k.want.lock.d;
    if RenameMutex in k.held {
      h := x;
      AboveSelf(s.up, x);
    } else {
      var d :| k.held == {DirLock(d)} && s.up[y] == d && y != d;
      assert DirLock(x) == DirLock(d);
      SubtreeShrinks(s.up, y);
      u, h := LeadsToRename(s, D, u);
      AboveSelf(s.up, y);
      AboveTrans(s.up, x, y, h);
    }
  }

  lemma Someone(D: set<int>) returns (t: int)
    ensures D == {} || t in D
  {
    if forall x :: x !in D {
      t := 0;
      assert D == {};
    } else {
      t :| t in D;
    }
  }

  /** No set of tasks can be waiting for each other. */
  lemma NoDeadlock(s: State, D: set<int>)
    requires Inv(s)
    ensures !Deadlocked(s, D)
  {
    hide Above, Climb, Ends, OpSane;
    if Deadlocked(s, D) {
      AllTasks(s, D);
      var t := Someone(D);
      var u := Holder(s, D, t);
      if s.tasks[t].want.lock.FileLock? { NoFileWanted(s, D, t); }
      if s.tasks[u].want.lock.FileLock? { NoFileWanted(s, D, u); }
      assert s.tasks[u].want.lock.DirLock?;
      var r, h := LeadsToRename(s, D, u);
      RenamerStuck(s, D, r, h);
      assert false;
    }
  }

  /** A rename that holds the mutex waits for nobody who waits for it. */
  lemma RenamerStuck(s: State, D: set<int>, r: int, h: int)
    requires Inv(s) && Deadlocked(s, D) && Renamer(s, r, h) && (forall t :: t in D ==> t in s.tasks)
    ensures r !in D
  {
    hide Above, Climb, Ends, Deadlocked, OpSane;
    if r in D {
      var v := Holder(s, D, r);
      if s.tasks[r].want.lock.FileLock? { NoFileWanted(s, D, r); }
      var z := s.tasks[r].want.lock.d;
      if s.tasks[v].want.lock.FileLock? { NoFileWanted(s, D, v); }
      assert RenameMutex !in s.tasks[v].held;
      var y := s.tasks[v].want.lock.d;
      var d :| s.tasks[v].held == {DirLock(d)} && s.up[y] == d && y != d;
      assert DirLock(z) == DirLock(d);
      var u, g := LeadsToRename(s, D, v);
      assert u == r;
      AboveSelf(s.up, y);
      AboveTrans(s.up, z, y, g);
      assert false;
    }
  }

  // ---------------------------------------------------------------- whole runs

  lemma SameDirsMove(up: map<int, int>, up': map<int, int>, c: int, d: int, p1: int, p2: int)
    requires up.Keys == up'.Keys && c in up && d in up && up[c] in {p1, p2} && up[d] in {p1, p2}
    requires forall x {:trigger up'[x]} :: x in up && x != c && x != d ==> up'[x] == up[x]
    ensures OnlyChildrenMove(up, up', p1, p2)
  {
  }

  lemma MoveKeeps(s: State, t: int, c: int, p: int)
    requires Inv(s) && t in s.tasks && HasBoth(s.tasks[t]) && c in s.up && p in s.up && !Above(s.up, c, p)
    requires var op := s.tasks[t].op; s.up[c] in {op.p1, op.p2}
    ensures Inv(s.(up := s.up[c := p]))
  {
    hide Forest, Above, Sane, Exclusive, OnlyChildrenMove;
    var op := s.tasks[t].op;
    MoveKeepsForest(s.up, c, p);
    SameDirsMove(s.up, s.up[c := p], c, c, op.p1, op.p2);
    RenameKeeps(s, t, s.up[c := p]);
  }

  lemma SwapKeeps(s: State, t: int, c: int, d: int)
    requires Inv(s) && t in s.tasks && HasBoth(s.tasks[t]) && c in s.up && d in s.up && c != d && s.up[c] != c && s.up[d] != d
    requires var op := s.tasks[t].op;
      s.up[c] == op.p2 && s.up[d] == op.p1 && op.p1 in s.up && op.p2 in s.up && !Above(s.up, c, op.p1) && !Above(s.up, d, op.p2)
    ensures Inv(s.(up := Swapped(s.up, c, d)))
  {
    hide Forest, Above, Sane, Exclusive, OnlyChildrenMove;
    var op := s.tasks[t].op;
    SwapKeepsForest(s.up, c, d);
    SameDirsMove(s.up, Swapped(s.up, c, d), c, d, op.p1, op.p2);
    RenameKeeps(s, t, Swapped(s.up, c, d));
  }

  lemma EntersKeep(s: State, step: Step, s': State)
    requires Inv(s) && Does(s, step, s')
    requires step.Spawn? || step.EnterDir? || step.EnterRename? || step.Unlock? || step.Finish?
    ensures Inv(s')
  {
    hide Forest, Above, Exclusive;
    var t := step.t;
    var k' := s'.tasks[t];
    if t in s.tasks { assert Sane(s.up, s.tasks[t]); }
    assert Sane(s.up, k');
    if step.Spawn? { WithInv(s, t, k'); } else { SameOrLess(s, t, k'); }
  }

  lemma StepKeeps(s: State, step: Step, s': State)
    requires Inv(s) && Does(s, step, s')
    ensures Inv(s')
  {
    hide Forest, Above, Inv;
    match step
    case Acquire(t) => AcquireKeeps(s, t);
    case ChooseFirst(t) => ChooseFirstKeeps(s, t);
    case ChooseSecond(t) => ChooseSecondKeeps(s, t);
    case WantVictim(t, c) => WantVictimKeeps(s, t, c);
    case WantTarget(t, c) => WantTargetKeeps(s, t, c);
    case WantFile(t, f) => WantFileKeeps(s, t, f);
    case MakeDir(t, c) => MakeDirKeeps(s, c, s.tasks[t].op.dir);
    case MoveDir(t, c) => MoveKeeps(s, t, c, s.tasks[t].op.p1);
    case MoveBack(t, c) => MoveKeeps(s, t, c, s.tasks[t].op.p2);
    case SwapDirs(t, c, d) => SwapKeeps(s, t, c, d);
    case Spawn(_) => EntersKeep(s, step, s');
    case EnterDir(_, _) => EntersKeep(s, step, s');
    case EnterRename(_, _, _) => EntersKeep(s, step, s');
    case Unlock(_, _) => EntersKeep(s, step, s');
    case Finish(_) => EntersKeep(s, step, s');
  }

  lemma InitInv(s: State)
    requires Init(s)
    ensures Inv(s)
  {
    var r :| s.up == map[r := r];
    assert Inside(s.up);
    assert Climb(s.up, r, 0) == r;
    assert Root(s.up, Climb(s.up, r, 0));
    assert Ends(s.up, r);
  }

  /** A run: any interleaving of any number of tasks. */
  ghost predicate Run(states: seq<State>) {
    states != [] && Init(states[0]) && forall i {:trigger states[i]} :: 0 < i < |states| ==> Next(states[i - 1], states[i])
  }

  lemma {:induction false} RunKeeps(states: seq<State>, i: nat)
    requires Run(states) && i < |states|
    ensures Inv(states[i])
  {
    hide Forest, Inv, Does, Init;
    if i == 0 {
      InitInv(states[0]);
    } else {
      RunKeeps(states, i - 1);
      assert Next(states[i - 1], states[i]);
      var step :| Does(states[i - 1], step, states[i]);
      StepKeeps(states[i - 1], step, states[i]);
    }
  }

  /** In no state of any run do tasks wait for each other. */
  lemma DeadlockFree(states: seq<State>, i: nat, D: set<int>)
    requires Run(states) && i < |states|
    ensures !Deadlocked(states[i], D) && Forest(states[i].up)
  {
    hide Deadlocked;
    RunKeeps(states, i);
    NoDeadlock(states[i], D);
  }

  /** Were a rename to take the lower of two directories first, it and an rmdir from the upper one could block each other. */
  lemma OrderMatters()
    ensures var s := State(map[0 := 0, 1 := 0], map[
        7 := Task(TwoDirs(1, 0, 1), {RenameMutex, DirLock(1)}, Wants(DirLock(0))),
        8 := Task(OneDir(0), {DirLock(0)}, Wants(DirLock(1)))]);
      Deadlocked(s, {7, 8})
  {
    var s := State(map[0 := 0, 1 := 0], map[
      7 := Task(TwoDirs(1, 0, 1), {RenameMutex, DirLock(1)}, Wants(DirLock(0))),
      8 := Task(OneDir(0), {DirLock(0)}, Wants(DirLock(1)))]);
    assert WaitsFor(s, 7, 8) && WaitsFor(s, 8, 7);
    assert Stuck(s, {7, 8}, 7) && Stuck(s, {7, 8}, 8);
  }
}
