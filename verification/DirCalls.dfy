/** Directory operations as wholes: what they change and under which locks, and that someone can always go on. */
module DirCalls {
  import opened DirTree
  import opened DirLocks

  // ---------------------------------------------------------------- changes of the tree

  ghost predicate HoldsAll(s: State, t: int, locks: set<Lock>) {
    t in s.tasks && locks <= s.tasks[t].held
  }

  /** A directory changes its parent only under the locks of both and the mutex, and appears only under the lock of its parent. */
  lemma ChangesLocked(s: State, step: Step, s': State, c: int)
    requires Inv(s) && Does(s, step, s')
    ensures c in s.up ==> c in s'.up
    ensures c in s.up && c in s'.up && s'.up[c] != s.up[c] ==>
      HoldsAll(s, step.t, {RenameMutex, DirLock(s.up[c]), DirLock(s'.up[c])})
    ensures c !in s.up && c in s'.up ==> HoldsAll(s, step.t, {DirLock(s'.up[c])})
  {
    hide Forest, Above, Sane, Exclusive;
  }

  /** A task that waits for a lock does nothing but take it, and no task changes what another holds. */
  lemma WaitingWaits(s: State, step: Step, s': State, t: int)
    requires Inv(s) && Does(s, step, s') && t in s.tasks
    ensures s.tasks[t].want.Wants? && !(step.Acquire? && step.t == t) ==> t in s'.tasks && s'.tasks[t] == s.tasks[t]
    ensures step.t in s.tasks && s.tasks[step.t].want.Wants? ==> step.Acquire?
  {
    hide Forest, Above, WantsDown, InOrder, Exclusive;
    if step.t in s.tasks { assert Sane(s.up, s.tasks[step.t]); }
  }

  /** What a task holds changes by one lock at a time: the one it waited for, once it is free, or one that it drops. */
  lemma HeldChanges(s: State, step: Step, s': State, t: int)
    requires Inv(s) && Does(s, step, s') && t in s.tasks
    ensures t in s'.tasks && s'.tasks[t].held ==
      if step.Acquire? && step.t == t && s.tasks[t].want.Wants? then s.tasks[t].held + {s.tasks[t].want.lock}
      else if step.Unlock? && step.t == t then s.tasks[t].held - {step.l}
      else s.tasks[t].held
    ensures step.Acquire? && step.t == t ==> s.tasks[t].want.Wants? && Free(s, s.tasks[t].want.lock)
  {
    hide Forest, Above, WantsDown, InOrder, Exclusive, Free;
    assert Sane(s.up, s.tasks[t]);
  }

  /** In every state of every run a lock has one holder. */
  lemma OneHolder(states: seq<State>, i: nat, l: Lock, t: int, u: int)
    requires Run(states) && i < |states| && HoldsAll(states[i], t, {l}) && HoldsAll(states[i], u, {l})
    ensures t == u
  {
    hide Forest, Run, Sane;
    RunKeeps(states, i);
  }

  // ---------------------------------------------------------------- someone can go on

  ghost predicate Busy(s: State, t: int) { t in s.tasks && !s.tasks[t].op.Idle? }

  /** Some step takes `t` further. */
  ghost predicate CanGo(s: State, t: int)
    requires Forest(s.up)
  {
    exists step, s' :: Does(s, step, s') && t in s.tasks && t in s'.tasks && s'.tasks[t] != s.tasks[t]
  }

  lemma FreeCanGo(s: State, t: int)
    requires Inv(s) && Busy(s, t) && (s.tasks[t].want.Wants? ==> Free(s, s.tasks[t].want.lock))
    ensures CanGo(s, t)
  {
    hide Forest, WantsDown, Exclusive, Free;
    var k := s.tasks[t];
    assert Sane(s.up, k);
    if k.want.Wants? {
      assert Does(s, Acquire(t), With(s, t, k.(held := k.held + {k.want.lock}, want := Nothing)));
    } else if k.held == {} {
      assert Does(s, Finish(t), With(s, t, Task(Idle, {}, Nothing)));
    } else {
      var l := SomeLock(k.held);
      assert Does(s, Unlock(t, l), With(s, t, Task(Leaving, k.held - {l}, Nothing)));
    }
  }

  lemma SomeLock(held: set<Lock>) returns (l: Lock)
    ensures held == {} || l in held
  {
    if forall x :: x !in held {
      l := RenameMutex;
      assert held == {};
    } else {
      l :| l in held;
    }
  }

  /** In every state of every run with an operation under way, one that is under way can go on. */
  lemma SomeoneCanGo(states: seq<State>, i: nat, t: int)
    requires Run(states) && i < |states| && Busy(states[i], t)
    ensures Forest(states[i].up) && exists u :: Busy(states[i], u) && CanGo(states[i], u)
  {
    hide Forest, Run, Sane, Does, CanGo, Exclusive;
    RunKeeps(states, i);
    var s := states[i];
    if forall u :: Busy(s, u) ==> !CanGo(s, u) {
      var D := set u | u in s.tasks && Busy(s, u);
      assert t in D;
      forall u {:trigger Stuck(s, D, u)} | u in D ensures Stuck(s, D, u) {
        if s.tasks[u].want.Nothing? || Free(s, s.tasks[u].want.lock) {
          FreeCanGo(s, u);
          assert false;
        }
        var v :| v in s.tasks && s.tasks[u].want.lock in s.tasks[v].held;
        HolderBusy(s, v, s.tasks[u].want.lock);
        assert WaitsFor(s, u, v) && v in D;
      }
      assert Deadlocked(s, D);
      NoDeadlock(s, D);
      assert false;
    }
  }

  lemma HolderBusy(s: State, v: int, l: Lock)
    requires Inv(s) && v in s.tasks && l in s.tasks[v].held
    ensures Busy(s, v)
  {
    hide Forest, WantsDown, InOrder, Exclusive;
    assert Sane(s.up, s.tasks[v]);
  }

  // ---------------------------------------------------------------- operations without interruption

  ghost predicate Takes(s: State, step: Step, s': State) { Forest(s.up) && Does(s, step, s') }

  ghost predicate Calls(states: seq<State>, steps: seq<Step>) {
    |states| == |steps| + 1 && forall i {:trigger steps[i]} :: 0 <= i < |steps| ==> Takes(states[i], steps[i], states[i + 1])
  }

  lemma NoCall(s: State)
    ensures Calls([s], [])
  {
  }

  lemma Then(states: seq<State>, steps: seq<Step>, step: Step, s': State) returns (states': seq<State>, steps': seq<Step>)
    requires Calls(states, steps) && states != [] && Takes(states[|states| - 1], step, s')
    ensures states' == states + [s'] && steps' == steps + [step] && Calls(states', steps')
  {
    hide Takes;
    states', steps' := states + [s'], steps + [step];
  }

  lemma Joined(states: seq<State>, steps: seq<Step>, states': seq<State>, steps': seq<Step>)
    requires Calls(states, steps) && Calls(states', steps') && states != [] && states' != [] && states[|states| - 1] == states'[0]
    ensures Calls(states + states'[1..], steps + steps')
    ensures (states + states'[1..])[|states| + |states'| - 2] == states'[|states'| - 1]
  {
    hide Takes;
    var a, b := states + states'[1..], steps + steps';
    forall i {:trigger b[i]} | 0 <= i < |b| ensures Takes(a[i], b[i], a[i + 1]) {
      if i < |steps| {
        assert b[i] == steps[i] && a[i + 1] == states[i + 1];
      } else {
        assert b[i] == steps'[i - |steps|];
      }
    }
  }

  /** Nobody but `t` holds any of the locks. */
  ghost predicate Spare(s: State, t: int, l: Lock) {
    forall u {:trigger s.tasks[u]} :: u in s.tasks && u != t ==> l !in s.tasks[u].held
  }

  lemma AcquireStep(s: State, t: int, k: Task)
    requires Forest(s.up) && t in s.tasks && k.want.Wants? && k.want.lock !in k.held && Spare(s, t, k.want.lock)
    ensures Takes(With(s, t, k), Acquire(t), With(s, t, k.(held := k.held + {k.want.lock}, want := Nothing)))
  {
    hide Forest;
    var s1, k' := With(s, t, k), k.(held := k.held + {k.want.lock}, want := Nothing);
    forall u {:trigger s1.tasks[u]} | u in s1.tasks ensures k.want.lock !in s1.tasks[u].held {
      if u != t { assert s1.tasks[u] == s.tasks[u]; }
    }
    assert With(s1, t, k') == With(s, t, k');
  }

  /** lock_rename when all its locks are free. */
  lemma LockBoth(s: State, t: int, p1: int, p2: int) returns (states: seq<State>, steps: seq<Step>, k: Task)
    requires Forest(s.up) && t in s.tasks && s.tasks[t] == Task(Idle, {}, Nothing) && p1 in s.up && p2 in s.up && p1 != p2
    requires Spare(s, t, RenameMutex) && Spare(s, t, DirLock(p1)) && Spare(s, t, DirLock(p2))
    ensures Calls(states, steps) && states != [] && states[0] == s && states[|states| - 1] == With(s, t, k)
    ensures HasBoth(k) && k.op.p1 == p1 && k.op.p2 == p2 && k.held == {RenameMutex, DirLock(p1), DirLock(p2)}
  {
    hide Calls, Forest, Spare, Ancestor;
    NoCall(s);
    var k1 := Task(TwoDirs(p1, p2, p1), {}, Wants(RenameMutex));
    states, steps := Then([s], [], EnterRename(t, p1, p2), With(s, t, k1));
    AcquireStep(s, t, k1);
    var k2 := k1.(held := {RenameMutex}, want := Nothing);
    assert k1.held + {k1.want.lock} == k2.held;
    states, steps := Then(states, steps, Acquire(t), With(s, t, k2));
    var first := First(s.up, p1, p2);
    var k3 := k2.(op := TwoDirs(p1, p2, first), want := Wants(DirLock(first)));
    assert With(With(s, t, k2), t, k3) == With(s, t, k3);
    states, steps := Then(states, steps, ChooseFirst(t), With(s, t, k3));
    AcquireStep(s, t, k3);
    var k4 := k3.(held := {RenameMutex, DirLock(first)}, want := Nothing);
    assert k3.held + {k3.want.lock} == k4.held;
    states, steps := Then(states, steps, Acquire(t), With(s, t, k4));
    var k5 := k4.(want := Wants(DirLock(Second(k4.op))));
    assert With(With(s, t, k4), t, k5) == With(s, t, k5);
    states, steps := Then(states, steps, ChooseSecond(t), With(s, t, k5));
    AcquireStep(s, t, k5);
    k := k5.(held := {RenameMutex, DirLock(p1), DirLock(p2)}, want := Nothing);
    assert k5.held + {k5.want.lock} == k.held;
    states, steps := Then(states, steps, Acquire(t), With(s, t, k));
  }

  /** Every lock is dropped and the operation is over. */
  lemma {:induction false} UnlockAll(s: State, t: int, k: Task) returns (states: seq<State>, steps: seq<Step>)
    requires Forest(s.up) && t in s.tasks && k.want.Nothing? && (k.held == {} ==> k.op.Leaving?)
    ensures Calls(states, steps) && states != [] && states[0] == With(s, t, k)
    ensures states[|states| - 1] == With(s, t, Task(Idle, {}, Nothing))
    decreases k.held
  {
    hide Calls, Forest;
    NoCall(With(s, t, k));
    if k.held == {} {
      assert With(With(s, t, k), t, Task(Idle, {}, Nothing)) == With(s, t, Task(Idle, {}, Nothing));
      states, steps := Then([With(s, t, k)], [], Finish(t), With(s, t, Task(Idle, {}, Nothing)));
    } else {
      var l := SomeLock(k.held);
      var k' := Task(Leaving, k.held - {l}, Nothing);
      assert With(With(s, t, k), t, k') == With(s, t, k');
      states, steps := Then([With(s, t, k)], [], Unlock(t, l), With(s, t, k'));
      var more, moreSteps := UnlockAll(s, t, k');
      Joined(states, steps, more, moreSteps);
      states, steps := states + more[1..], steps + moreSteps;
    }
  }

  /** What a rename on its own comes to: the tree is `up`, and nothing else has changed. */
  ghost predicate Leads(s: State, up: map<int, int>, states: seq<State>, steps: seq<Step>) {
    Calls(states, steps) && states != [] && states[0] == s && states[|states| - 1] == s.(up := up)
  }

  /** A step that changes the tree between taking the locks and dropping them. */
  lemma Around(s: State, t: int, up: map<int, int>, step: Step, states: seq<State>, steps: seq<Step>, k: Task)
    returns (states': seq<State>, steps': seq<Step>)
    requires Forest(s.up) && Forest(up) && t in s.tasks && s.tasks[t] == Task(Idle, {}, Nothing)
    requires Calls(states, steps) && states != [] && states[0] == s && states[|states| - 1] == With(s, t, k)
    requires k.want.Nothing? && k.held != {} && Takes(With(s, t, k), step, With(s, t, k).(up := up))
    ensures Leads(s, up, states', steps')
  {
    hide Calls, Forest, Takes;
    var u := s.(up := up);
    assert With(s, t, k).(up := up) == With(u, t, k);
    states', steps' := Then(states, steps, step, With(u, t, k));
    var more, moreSteps := UnlockAll(u, t, k);
    Joined(states', steps', more, moreSteps);
    states', steps' := states' + more[1..], steps' + moreSteps;
    assert u.tasks[t := Task(Idle, {}, Nothing)] == u.tasks;
  }

  /** renameat2 of a directory on its own, to a directory that is not below it, moves it there. */
  lemma RenameMoves(s: State, t: int, p1: int, p2: int, c: int) returns (states: seq<State>, steps: seq<Step>)
    requires Inv(s) && t in s.tasks && s.tasks[t] == Task(Idle, {}, Nothing) && p1 in s.up && p2 in s.up && p1 != p2
    requires Spare(s, t, RenameMutex) && Spare(s, t, DirLock(p1)) && Spare(s, t, DirLock(p2))
    requires c in s.up && s.up[c] == p2 != c && !Above(s.up, c, p1)
    ensures Leads(s, s.up[c := p1], states, steps) && Forest(s.up[c := p1])
  {
    hide Calls, Forest, Spare, Above, Sane, Exclusive;
    var k;
    states, steps, k := LockBoth(s, t, p1, p2);
    MoveKeepsForest(s.up, c, p1);
    assert Takes(With(s, t, k), MoveDir(t, c), With(s, t, k).(up := s.up[c := p1]));
    states, steps := Around(s, t, s.up[c := p1], MoveDir(t, c), states, steps, k);
  }

  /** The exchange of a file with a directory on its own moves the directory the other way. */
  lemma RenameMovesBack(s: State, t: int, p1: int, p2: int, c: int) returns (states: seq<State>, steps: seq<Step>)
    requires Inv(s) && t in s.tasks && s.tasks[t] == Task(Idle, {}, Nothing) && p1 in s.up && p2 in s.up && p1 != p2
    requires Spare(s, t, RenameMutex) && Spare(s, t, DirLock(p1)) && Spare(s, t, DirLock(p2))
    requires c in s.up && s.up[c] == p1 != c && !Above(s.up, c, p2)
    ensures Leads(s, s.up[c := p2], states, steps) && Forest(s.up[c := p2])
  {
    hide Calls, Forest, Spare, Above, Sane, Exclusive;
    var k;
    states, steps, k := LockBoth(s, t, p1, p2);
    MoveKeepsForest(s.up, c, p2);
    assert Takes(With(s, t, k), MoveBack(t, c), With(s, t, k).(up := s.up[c := p2]));
    states, steps := Around(s, t, s.up[c := p2], MoveBack(t, c), states, steps, k);
  }

  /** The exchange of two directories on its own, neither above the parent of the other, swaps their parents. */
  lemma RenameSwaps(s: State, t: int, p1: int, p2: int, c: int, d: int) returns (states: seq<State>, steps: seq<Step>)
    requires Inv(s) && t in s.tasks && s.tasks[t] == Task(Idle, {}, Nothing) && p1 in s.up && p2 in s.up && p1 != p2
    requires Spare(s, t, RenameMutex) && Spare(s, t, DirLock(p1)) && Spare(s, t, DirLock(p2))
    requires c in s.up && s.up[c] == p2 != c && !Above(s.up, c, p1) && d in s.up && s.up[d] == p1 != d && !Above(s.up, d, p2) && c != d
    ensures Leads(s, s.up[c := p1][d := p2], states, steps) && Forest(s.up[c := p1][d := p2])
  {
    hide Calls, Forest, Spare, Above, Sane, Exclusive;
    var k;
    states, steps, k := LockBoth(s, t, p1, p2);
    SwapKeepsForest(s.up, c, d);
    var up := s.up[c := p1][d := p2];
    assert Swapped(s.up, c, d) == up;
    assert Takes(With(s, t, k), SwapDirs(t, c, d), With(s, t, k).(up := up));
    states, steps := Around(s, t, up, SwapDirs(t, c, d), states, steps, k);
  }

  /** mkdir on its own makes a directory. */
  lemma MkdirMakes(s: State, t: int, p: int, c: int) returns (states: seq<State>, steps: seq<Step>)
    requires Inv(s) && t in s.tasks && s.tasks[t] == Task(Idle, {}, Nothing) && p in s.up && c !in s.up && Spare(s, t, DirLock(p))
    ensures Leads(s, s.up[c := p], states, steps) && Forest(s.up[c := p])
  {
    hide Calls, Forest, Spare, Sane, Exclusive;
    NoCall(s);
    var k1 := Task(OneDir(p), {}, Wants(DirLock(p)));
    states, steps := Then([s], [], EnterDir(t, p), With(s, t, k1));
    AcquireStep(s, t, k1);
    var k := k1.(held := {DirLock(p)}, want := Nothing);
    assert k1.held + {k1.want.lock} == k.held;
    states, steps := Then(states, steps, Acquire(t), With(s, t, k));
    LeafKeepsForest(s.up, c, p);
    assert Takes(With(s, t, k), MakeDir(t, c), With(s, t, k).(up := s.up[c := p]));
    states, steps := Around(s, t, s.up[c := p], MakeDir(t, c), states, steps, k);
  }

  /** `t` comes to hold one lock more. */
  ghost predicate GetsLock(s: State, t: int, k: Task, l: Lock) {
    exists step, s' :: Takes(With(s, t, k), step, s') && s' == With(s, t, k.(want := Wants(l)))
      && Takes(s', Acquire(t), With(s, t, k.(held := k.held + {l}, want := Nothing)))
  }

  lemma GetsFree(s: State, t: int, k: Task, step: Step, l: Lock)
    requires Forest(s.up) && t in s.tasks && k.want.Nothing? && l !in k.held && Spare(s, t, l)
    requires Takes(With(s, t, k), step, With(s, t, k.(want := Wants(l))))
    ensures GetsLock(s, t, k, l)
  {
    hide Forest, Takes, Spare;
    AcquireStep(s, t, k.(want := Wants(l)));
  }

  /** The victim of an rmdir, or of a rename inside one directory, is locked if it is free. */
  lemma VictimGetsLocked(s: State, t: int, k: Task, c: int)
    requires Inv(s) && t in s.tasks && k.want.Nothing? && k.op.OneDir? && k.held == {DirLock(k.op.dir)}
    requires c in s.up && s.up[c] == k.op.dir != c && Spare(s, t, DirLock(c))
    ensures GetsLock(s, t, k, DirLock(c))
  {
    hide Forest, Spare, Sane, Exclusive, GetsLock;
    assert With(With(s, t, k), t, k.(want := Wants(DirLock(c)))) == With(s, t, k.(want := Wants(DirLock(c))));
    GetsFree(s, t, k, WantVictim(t, c), DirLock(c));
  }

  /** The target of a rename between two directories is locked if it is free and not above the old directory. */
  lemma TargetGetsLocked(s: State, t: int, k: Task, c: int)
    requires Inv(s) && t in s.tasks && HasBoth(k) && k.held == {RenameMutex, DirLock(k.op.p1), DirLock(k.op.p2)}
    requires c in s.up && s.up[c] == k.op.p1 != c && k.op.p2 in s.up && !Above(s.up, c, k.op.p2) && Spare(s, t, DirLock(c))
    ensures GetsLock(s, t, k, DirLock(c))
  {
    hide Spare, Above, Ends, Climb, Sane, Exclusive, GetsLock;
    AboveSelf(s.up, c);
    assert With(With(s, t, k), t, k.(want := Wants(DirLock(c)))) == With(s, t, k.(want := Wants(DirLock(c))));
    GetsFree(s, t, k, WantTarget(t, c), DirLock(c));
  }

  /** Files are locked in ascending order. */
  lemma FileGetsLocked(s: State, t: int, k: Task, f: int)
    requires Inv(s) && t in s.tasks && k.want.Nothing? && (HasBoth(k) || (k.op.OneDir? && DirLock(k.op.dir) in k.held))
    requires (forall g {:trigger HoldsFile(k.held, g)} :: HoldsFile(k.held, g) ==> g < f) && Spare(s, t, FileLock(f))
    ensures GetsLock(s, t, k, FileLock(f))
  {
    hide Forest, Spare, Sane, Exclusive, GetsLock;
    assert FileLock(f) in k.held ==> HoldsFile(k.held, f);
    assert With(With(s, t, k), t, k.(want := Wants(FileLock(f)))) == With(s, t, k.(want := Wants(FileLock(f))));
    GetsFree(s, t, k, WantFile(t, f), FileLock(f));
  }
}
