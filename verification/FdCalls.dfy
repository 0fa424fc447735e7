/** Whole calls in runs of the descriptor table: what is installed stays until it is closed or replaced, and nobody is stuck. */
module FdCalls {
  import opened FdResize

  /** A run with the steps it takes. */
  ghost predicate Trace(states: seq<State>, steps: seq<Step>) {
    && |states| == |steps| + 1 && Init(states[0])
    && forall i {:trigger steps[i]} :: 0 <= i < |steps| ==> Does(states[i], steps[i], states[i + 1])
  }

  lemma TraceKeeps(states: seq<State>, steps: seq<Step>, i: nat)
    requires Trace(states, steps) && i < |states|
    ensures Inv(states[i]) && (i < |steps| ==> Does(states[i], steps[i], states[i + 1]))
  {
    hide Init, Does, Inv;
    forall j {:trigger states[j]} | 0 < j < |states| ensures Next(states[j - 1], states[j]) {
      assert Does(states[j - 1], steps[j - 1], states[j]);
    }
    RunKeeps(states, i);
  }

  // ---------------------------------------------------------------- what is installed

  /** `t` is in fd_install(fd, file). */
  ghost predicate Installing(s: State, t: int, fd: nat, file: int) {
    t in s.threads && var pc := s.threads[t]; (pc.Checked? || pc.Loaded? || pc.Slow?) && pc.fd == fd && pc.file == file
  }

  ghost predicate Completes(step: Step, t: int) {
    step == Store(t) || step == SlowStore(t)
  }

  lemma OthersStay(s: State, step: Step, s': State, t: int)
    requires Does(s, step, s') && t in s.threads && step.t != t
    ensures t in s'.threads && s'.threads[t] == s.threads[t]
  {
    hide Slot;
    if step.CopySlot? { SlotFiles(s, s.threads[step.t].table, s.threads[step.t].i); }
    if step.Close? || step.Dup2? { SlotFiles(s, s.cur, step.fd); }
    if step.Store? || step.SlowStore? {
      SlotFiles(s, if step.Store? then s.threads[step.t].table else s.cur, s.threads[step.t].fd);
    }
  }

  lemma OwnStep(s: State, step: Step, s': State, t: int, fd: nat, file: int)
    requires Does(s, step, s') && Installing(s, t, fd, file) && step.t == t
    ensures if Completes(step, t) then fd in s'.installed && s'.installed[fd] == file else Installing(s', t, fd, file)
  {
    hide Slot;
    match step
    case LoadTable(_) =>
    case Store(_) =>
    case SlowStore(_) =>
    case _ => assert false;
  }

  lemma InstallStep(s: State, step: Step, s': State, t: int, fd: nat, file: int)
    requires Does(s, step, s') && Installing(s, t, fd, file)
    ensures Completes(step, t) ==> fd in s'.installed && s'.installed[fd] == file
    ensures !Completes(step, t) ==> Installing(s', t, fd, file)
  {
    hide Does;
    if step.t != t { OthersStay(s, step, s', t); } else { OwnStep(s, step, s', t, fd, file); }
  }

  lemma {:induction false} InstallGoes(states: seq<State>, steps: seq<Step>, a: nat, k: nat, t: int, fd: nat, file: int)
    requires Trace(states, steps) && a < k < |states| && steps[a] == StartInstall(t, fd, file)
    requires forall i {:trigger steps[i]} :: a < i < k ==> !Completes(steps[i], t)
    ensures Installing(states[k], t, fd, file)
  {
    hide Inv, Init, Does, Installing;
    TraceKeeps(states, steps, k - 1);
    if k == a + 1 {
      InstallStarts(states[a], t, fd, file, states[k]);
    } else {
      InstallGoes(states, steps, a, k - 1, t, fd, file);
      InstallStep(states[k - 1], steps[k - 1], states[k], t, fd, file);
    }
  }

  lemma InstallStarts(s: State, t: int, fd: nat, file: int, s': State)
    requires Does(s, StartInstall(t, fd, file), s')
    ensures Installing(s', t, fd, file)
  {
  }

  /** A step that closes or replaces `fd`. */
  ghost predicate Ends(step: Step, fd: nat) {
    (step.Close? || step.Dup2?) && step.fd == fd
  }

  lemma HoldsStep(s: State, step: Step, s': State, fd: nat)
    requires Inv(s) && Does(s, step, s') && fd in s.installed && !Ends(step, fd)
    ensures fd in s'.installed && s'.installed[fd] == s.installed[fd]
  {
    hide OneResizer, Slot;
    if step.Store? || step.SlowStore? {
      assert ThreadOk(s, step.t, s.threads[step.t]);
    } else if !step.Close? && !step.Dup2? {
      SameFiles(s, step, s');
    }
  }

  lemma SameFiles(s: State, step: Step, s': State)
    requires Does(s, step, s') && !step.Store? && !step.SlowStore? && !step.Close? && !step.Dup2?
    ensures s'.installed == s.installed
  {
    hide Slot;
    if step.CopySlot? { SlotFiles(s, s.threads[step.t].table, s.threads[step.t].i); }
  }

  lemma SlotFiles(s: State, id: int, i: nat)
    requires id in s.tables
    ensures forall file :: Slot(s, id, i, file).installed == s.installed && Slot(s, id, i, file).threads == s.threads
  {
  }

  lemma {:induction false} Holds(states: seq<State>, steps: seq<Step>, i: nat, k: nat, fd: nat)
    requires Trace(states, steps) && i <= k < |states| && fd in states[i].installed
    requires forall j {:trigger steps[j]} :: i <= j < k ==> !Ends(steps[j], fd)
    ensures fd in states[k].installed && states[k].installed[fd] == states[i].installed[fd]
    decreases k
  {
    hide Inv, Init, Does;
    if i < k {
      Holds(states, steps, i, k - 1, fd);
      TraceKeeps(states, steps, k - 1);
      HoldsStep(states[k - 1], steps[k - 1], states[k], fd);
    }
  }

  /** `fd` leads to `file` in the published table, 0 for none. */
  ghost predicate Leads(s: State, fd: nat, file: int) {
    s.cur in s.tables && if fd < |s.tables[s.cur]| then s.tables[s.cur][fd] == file else file == 0
  }

  /**
   What fd_install(fd, file) has stored is in the published table from then on, whatever resizes are under way, until `fd` is
   closed or replaced.
   */
  lemma InstallStays(states: seq<State>, steps: seq<Step>, a: nat, b: nat, k: nat, t: int, fd: nat, file: int)
    requires Trace(states, steps) && a < b < k < |states| && steps[a] == StartInstall(t, fd, file) && Completes(steps[b], t)
    requires forall i {:trigger steps[i]} :: a < i < b ==> !Completes(steps[i], t)
    requires forall i {:trigger steps[i]} :: b < i < k ==> !Ends(steps[i], fd)
    ensures Leads(states[k], fd, file)
  {
    hide Init, Does, Installing;
    InstallGoes(states, steps, a, b, t, fd, file);
    TraceKeeps(states, steps, b);
    InstallStep(states[b], steps[b], states[b + 1], t, fd, file);
    Holds(states, steps, b + 1, k, fd);
    TraceKeeps(states, steps, k);
  }

  /** The same for dup2, which stores under the lock. */
  lemma ReplacementStays(states: seq<State>, steps: seq<Step>, a: nat, k: nat, t: int, fd: nat, file: int)
    requires Trace(states, steps) && a < k < |states| && steps[a] == Dup2(t, fd, file)
    requires forall i {:trigger steps[i]} :: a < i < k ==> !Ends(steps[i], fd)
    ensures Leads(states[k], fd, file)
  {
    hide Init;
    TraceKeeps(states, steps, a);
    Holds(states, steps, a + 1, k, fd);
    TraceKeeps(states, steps, k);
  }

  /** A step that puts a file in `fd`. */
  ghost predicate Begins(s: State, step: Step, fd: nat) {
    || (step.Dup2? && step.fd == fd)
    || ((step.Store? || step.SlowStore?) && step.t in s.threads && (exists file :: Installing(s, step.t, fd, file)))
  }

  lemma EmptyStep(s: State, step: Step, s': State, fd: nat)
    requires Does(s, step, s') && fd !in s.installed && !Begins(s, step, fd)
    ensures fd !in s'.installed
  {
    if step.Store? || step.SlowStore? {
      var pc := s.threads[step.t];
      assert Installing(s, step.t, pc.fd, pc.file);
    }
  }

  lemma {:induction false} StaysEmpty(states: seq<State>, steps: seq<Step>, i: nat, k: nat, fd: nat)
    requires Trace(states, steps) && i <= k < |states| && fd !in states[i].installed
    requires forall j {:trigger steps[j]} :: i <= j < k ==> !Begins(states[j], steps[j], fd)
    ensures fd !in states[k].installed
    decreases k
  {
    hide Inv, Init, Does, Begins;
    if i < k {
      StaysEmpty(states, steps, i, k - 1, fd);
      TraceKeeps(states, steps, k - 1);
      EmptyStep(states[k - 1], steps[k - 1], states[k], fd);
    }
  }

  /** A descriptor that has been closed leads nowhere until a file is put in it again. */
  lemma ClosedStays(states: seq<State>, steps: seq<Step>, a: nat, k: nat, t: int, fd: nat)
    requires Trace(states, steps) && a < k < |states| && steps[a] == Close(t, fd)
    requires forall i {:trigger steps[i]} :: a < i < k ==> !Begins(states[i], steps[i], fd)
    ensures Leads(states[k], fd, 0)
  {
    hide Init, Begins;
    TraceKeeps(states, steps, a);
    StaysEmpty(states, steps, a + 1, k, fd);
    TraceKeeps(states, steps, k);
  }

  // ---------------------------------------------------------------- nobody is stuck

  /** Some step takes `t` further. */
  ghost predicate CanGo(s: State, t: int) {
    exists step, s' :: Does(s, step, s') && step.t == t && t in s.threads && t in s'.threads && s'.threads[t] != s.threads[t]
  }

  /** `t` waits for the lock that `u` holds, or for the install that `u` has begun without it. */
  ghost predicate WaitsFor(s: State, t: int, u: int) {
    t in s.threads && u in s.threads
    && ((s.threads[t].Slow? && (s.threads[u].Copying? || s.threads[u].Published?))
        || (s.threads[t].Syncing? && InSection(s.threads[u])))
  }

  lemma InstallerCanGo(s: State, t: int)
    requires Inv(s) && t in s.threads && (InSection(s.threads[t]) || (s.threads[t].Slow? && !s.locked))
    ensures CanGo(s, t)
  {
    assert ThreadOk(s, t, s.threads[t]);
    match s.threads[t]
    case Checked(fd, file) => assert Does(s, LoadTable(t), At(s, t, Loaded(fd, file, s.cur)));
    case Loaded(fd, file, table) =>
      assert Does(s, Store(t), At(Slot(s, table, fd, file), t, Idle).(claims := s.claims - {fd}, installed := s.installed[fd := file]));
    case Slow(fd, file) =>
      assert Does(s, SlowStore(t), At(Slot(s, s.cur, fd, file), t, Idle).(claims := s.claims - {fd}, installed := s.installed[fd := file]));
  }

  lemma HolderCanGo(s: State, t: int)
    requires Inv(s) && t in s.threads && (s.threads[t].Copying? || s.threads[t].Published?)
    ensures CanGo(s, t)
  {
    hide TableOk, OneResizer;
    CurrentThere(s);
    assert ThreadOk(s, t, s.threads[t]);
    match s.threads[t]
    case Copying(nr, table, i) =>
      if i < |s.tables[table]| {
        var f := if i < |s.tables[s.cur]| then s.tables[s.cur][i] else 0;
        assert Does(s, CopySlot(t), At(Slot(s, table, i, f), t, Copying(nr, table, i + 1)));
      } else {
        assert Does(s, Publish(t), At(s, t, Published(table)).(cur := table));
      }
    case Published(table) => assert Does(s, Finish(t), At(s, t, Idle).(resizing := false, locked := false));
  }

  lemma CurrentThere(s: State)
    requires Inv(s)
    ensures s.cur in s.tables
  {
  }

  lemma ResizerCanGo(s: State, t: int)
    requires Inv(s) && t in s.threads
    requires s.threads[t].Allocating? || s.threads[t].Synced? || (s.threads[t].Syncing? && NoneInSection(s))
    ensures CanGo(s, t)
  {
    NotLocked(s, t);
    assert ThreadOk(s, t, s.threads[t]);
    match s.threads[t]
    case Allocating(nr) => assert Does(s, AllocFail(t), At(s, t, Idle).(resizing := false));
    case Syncing(nr, table, waiting) => assert Does(s, SyncDone(t), At(s, t, Synced(nr, table)));
    case Synced(nr, table) =>
      var s' := if |s.tables[table]| <= nr then At(s, t, Idle).(resizing := false) else At(s, t, Copying(nr, table, 0)).(locked := true);
      assert Does(s, TakeLock(t), s');
  }

  /**
   In every state of every run a thread that is in a call can go on, or waits for the lock or for installs under way, and whom
   it waits for can go on.
   */
  lemma NobodyStuck(states: seq<State>, steps: seq<Step>, i: nat, t: int)
    requires Trace(states, steps) && i < |states| && t in states[i].threads && !states[i].threads[t].Idle?
    ensures CanGo(states[i], t) || exists u :: WaitsFor(states[i], t, u) && CanGo(states[i], u)
  {
    hide Init, CanGo, TableOk, ThreadOk;
    TraceKeeps(states, steps, i);
    var s := states[i];
    match s.threads[t]
    case Checked(_, _) => InstallerCanGo(s, t);
    case Loaded(_, _, _) => InstallerCanGo(s, t);
    case Slow(_, _) =>
      if s.locked {
        var u :| u in s.threads && (s.threads[u].Copying? || s.threads[u].Published?);
        HolderCanGo(s, u);
        assert WaitsFor(s, t, u);
      } else {
        InstallerCanGo(s, t);
      }
    case Syncing(_, _, _) =>
      if NoneInSection(s) {
        ResizerCanGo(s, t);
      } else {
        var u :| u in s.threads && InSection(s.threads[u]);
        InstallerCanGo(s, u);
        assert WaitsFor(s, t, u);
      }
    case Allocating(_) => ResizerCanGo(s, t);
    case Synced(_, _) => ResizerCanGo(s, t);
    case Copying(_, _, _) => HolderCanGo(s, t);
    case Published(_) => HolderCanGo(s, t);
  }

  // ---------------------------------------------------------------- a resize on its own

  ghost predicate Calls(states: seq<State>, steps: seq<Step>) {
    |states| == |steps| + 1 && forall i {:trigger steps[i]} :: 0 <= i < |steps| ==> Does(states[i], steps[i], states[i + 1])
  }

  lemma NoCall(s: State)
    ensures Calls([s], [])
  {
  }

  lemma Then(states: seq<State>, steps: seq<Step>, step: Step, s': State) returns (states': seq<State>, steps': seq<Step>)
    requires Calls(states, steps) && Does(states[|states| - 1], step, s')
    ensures states' == states + [s'] && steps' == steps + [step] && Calls(states', steps')
  {
    hide Does;
    states', steps' := states + [s'], steps + [step];
  }

  /** The state in the middle of the copy of `s`. */
  ghost predicate CopiedTo(s: State, s': State, t: int, nr: nat, id: int, i: nat) {
    && Inv(s') && t in s'.threads && s'.threads[t] == Copying(nr, id, i) && id in s'.tables && i <= |s'.tables[id]|
    && s.cur in s.tables && s'.cur == s.cur && s'.cur in s'.tables && s'.tables[s.cur] == s.tables[s.cur]
    && s'.installed == s.installed && s'.claims == s.claims
  }

  lemma {:induction false} CopyAll(s: State, states: seq<State>, steps: seq<Step>, t: int, nr: nat, id: int, i: nat)
    returns (states': seq<State>, steps': seq<Step>)
    requires Calls(states, steps) && states != [] && CopiedTo(s, states[|states| - 1], t, nr, id, i)
    ensures Calls(states', steps') && states' != [] && states'[0] == states[0]
    ensures var s', n := states'[|states'| - 1], |states[|states| - 1].tables[id]|;
      CopiedTo(s, s', t, nr, id, n) && |s'.tables[id]| == n
    decreases |states[|states| - 1].tables[id]| - i
  {
    hide Calls, Inv;
    var u := states[|states| - 1];
    states', steps' := states, steps;
    if i < |u.tables[id]| {
      var f := if i < |u.tables[u.cur]| then u.tables[u.cur][i] else 0;
      var s' := At(Slot(u, id, i, f), t, Copying(nr, id, i + 1));
      OtherTable(u, t, nr, id, i);
      CopyKeeps(u, t);
      states', steps' := Then(states, steps, CopySlot(t), s');
      states', steps' := CopyAll(s, states', steps', t, nr, id, i + 1);
    }
  }

  lemma OtherTable(s: State, t: int, nr: nat, id: int, i: nat)
    requires Inv(s) && t in s.threads && s.threads[t] == Copying(nr, id, i)
    ensures id != s.cur
  {
    assert ThreadOk(s, t, s.threads[t]);
  }

  /** The table of `s` has grown: the new one has room for `nr` and holds what the old one held. */
  ghost predicate Grown(s: State, s': State, t: int, nr: nat) {
    && s.cur in s.tables && s'.cur in s'.tables && |s'.tables[s'.cur]| > nr && s'.installed == s.installed && s'.claims == s.claims
    && (forall fd {:trigger s'.tables[s'.cur][fd]} :: 0 <= fd < |s'.tables[s'.cur]| ==>
          s'.tables[s'.cur][fd] == if fd < |s.tables[s.cur]| then s.tables[s.cur][fd] else 0)
    && t in s'.threads && s'.threads[t].Idle? && !s'.resizing && !s'.locked
  }

  /** expand_fdtable on its own, with a large enough new table: the table grows. */
  lemma ResizeSucceeds(s: State, t: int, nr: nat, id: int, slots: seq<int>) returns (states: seq<State>, steps: seq<Step>)
    requires Inv(s) && s.cur in s.tables && t in s.threads && s.threads[t].Idle? && !s.locked && !s.resizing && NoneInSection(s)
    requires nr >= |s.tables[s.cur]| && id !in s.tables && |slots| > nr
    ensures Calls(states, steps) && states != [] && states[0] == s && Grown(s, states[|states| - 1], t, nr)
  {
    hide Calls, Inv, NoneInSection;
    NoCall(s);
    states, steps := [s], [];
    var s1 := At(s, t, Allocating(nr)).(resizing := true);
    StartKeeps(s, t, nr);
    states, steps := Then(states, steps, StartResize(t, nr), s1);
    states, steps := AllocAndLock(s, states, steps, t, nr, id, slots);
    states, steps := CopyAll(s, states, steps, t, nr, id, 0);
    var s4 := states[|states| - 1];
    OtherTable(s4, t, nr, id, |s4.tables[id]|);
    CopyIsExact(s4, t);
    var s5 := At(s4, t, Published(id)).(cur := id);
    states, steps := Then(states, steps, Publish(t), s5);
    states, steps := Then(states, steps, Finish(t), At(s5, t, Idle).(resizing := false, locked := false));
  }

  lemma CopyIsExact(s: State, t: int)
    requires Inv(s) && s.cur in s.tables && t in s.threads && s.threads[t].Copying? && s.threads[t].table in s.tables
    requires s.threads[t].i == |s.tables[s.threads[t].table]|
    ensures var pc := s.threads[t];
      && |s.tables[pc.table]| > pc.nr
      && forall j {:trigger s.tables[pc.table][j]} :: 0 <= j < |s.tables[pc.table]| ==>
           s.tables[pc.table][j] == if j < |s.tables[s.cur]| then s.tables[s.cur][j] else 0
  {
    assert ThreadOk(s, t, s.threads[t]);
  }

  ghost function Allocated(s: State, t: int, nr: nat, id: int, slots: seq<int>): State {
    At(s, t, if s.threads.Keys != {t} then Syncing(nr, id, {}) else Synced(nr, id)).(tables := s.tables[id := slots])
  }

  lemma AllocDone(s: State, t: int, nr: nat, id: int, slots: seq<int>)
    requires Inv(s) && t in s.threads && s.threads[t] == Allocating(nr) && NoneInSection(s) && id !in s.tables
    ensures Does(s, Alloc(t, id, slots), Allocated(s, t, nr, id, slots)) && Inv(Allocated(s, t, nr, id, slots))
  {
    hide TableOk, OneResizer, ThreadOk;
    CurrentThere(s);
    var waiting := set u | u in s.threads && InSection(s.threads[u]);
    forall u ensures u !in waiting { assert u in s.threads ==> !InSection(s.threads[u]); }
    assert waiting == {};
    AllocKeeps(s, t, id, slots);
  }

  lemma SyncIsDone(s: State, t: int, nr: nat, id: int)
    requires Inv(s) && t in s.threads && s.threads[t] == Syncing(nr, id, {})
    ensures Does(s, SyncDone(t), At(s, t, Synced(nr, id))) && Inv(At(s, t, Synced(nr, id)))
  {
    CurrentThere(s);
    hide TableOk, OneResizer, ThreadOk, Inv;
    assert Does(s, SyncDone(t), At(s, t, Synced(nr, id)));
    StepKeeps(s, At(s, t, Synced(nr, id)));
  }

  lemma LockIsTaken(s: State, t: int, nr: nat, id: int)
    requires Inv(s) && t in s.threads && s.threads[t] == Synced(nr, id) && !s.locked && id in s.tables && |s.tables[id]| > nr
    ensures var s' := At(s, t, Copying(nr, id, 0)).(locked := true); Does(s, TakeLock(t), s') && Inv(s')
  {
    CurrentThere(s);
    hide TableOk, OneResizer, ThreadOk, Inv;
    var s' := At(s, t, Copying(nr, id, 0)).(locked := true);
    assert Does(s, TakeLock(t), s');
    StepKeeps(s, s');
  }

  /** From the allocation up to the beginning of the copy. */
  lemma AllocAndLock(s: State, states: seq<State>, steps: seq<Step>, t: int, nr: nat, id: int, slots: seq<int>)
    returns (states': seq<State>, steps': seq<Step>)
    requires s.cur in s.tables && t in s.threads && s.threads[t].Idle? && NoneInSection(s) && id !in s.tables && |slots| > nr
    requires Calls(states, steps) && states != [] && states[0] == s && !s.locked
    requires states[|states| - 1] == At(s, t, Allocating(nr)).(resizing := true) && Inv(states[|states| - 1])
    ensures Calls(states', steps') && states' != [] && states'[0] == s
    ensures CopiedTo(s, states'[|states'| - 1], t, nr, id, 0)
  {
    hide Calls, Inv, Does;
    var s1 := states[|states| - 1];
    var s2 := Allocated(s1, t, nr, id, slots);
    AllocDone(s1, t, nr, id, slots);
    states', steps' := Then(states, steps, Alloc(t, id, slots), s2);
    if s1.threads.Keys != {t} {
      SyncIsDone(s2, t, nr, id);
      states', steps' := Then(states', steps', SyncDone(t), At(s2, t, Synced(nr, id)));
    }
    var s3 := states'[|states'| - 1];
    LockIsTaken(s3, t, nr, id);
    states', steps' := Then(states', steps', TakeLock(t), At(s3, t, Copying(nr, id, 0)).(locked := true));
  }

  // ---------------------------------------------------------------- other calls on their own

  /** A descriptor that is claimed and then installed to, without interruption, leads to the file, resize or not. */
  lemma OpenSucceeds(s: State, t: int, fd: nat, file: int) returns (states: seq<State>, steps: seq<Step>)
    requires Inv(s) && s.cur in s.tables && t in s.threads && s.threads[t].Idle? && !s.locked && file != 0
    requires fd < |s.tables[s.cur]| && s.tables[s.cur][fd] == 0 && fd !in s.claims
    ensures Calls(states, steps) && states != [] && states[0] == s && steps != [] && steps[0] == Claim(t, fd)
    ensures var s' := states[|states| - 1];
      Leads(s', fd, file) && fd !in s'.claims && t in s'.threads && s'.threads[t].Idle? && s'.resizing == s.resizing
  {
    hide Calls;
    NoCall(s);
    var s1 := s.(claims := s.claims[fd := t]);
    states, steps := Then([s], [], Claim(t, fd), s1);
    var s2 := At(s1, t, if s.resizing then Slow(fd, file) else Checked(fd, file));
    states, steps := Then(states, steps, StartInstall(t, fd, file), s2);
    if s.resizing {
      var s3 := At(Slot(s2, s.cur, fd, file), t, Idle).(claims := s2.claims - {fd}, installed := s2.installed[fd := file]);
      states, steps := Then(states, steps, SlowStore(t), s3);
    } else {
      var s3 := At(s2, t, Loaded(fd, file, s.cur));
      states, steps := Then(states, steps, LoadTable(t), s3);
      var s4 := At(Slot(s3, s.cur, fd, file), t, Idle).(claims := s3.claims - {fd}, installed := s3.installed[fd := file]);
      states, steps := Then(states, steps, Store(t), s4);
    }
  }

  /** Claiming a descriptor and giving it back leaves everything as it was; so do coming and going. */
  lemma RoundTrips(s: State, t: int, fd: nat, u: int)
    requires Inv(s) && s.cur in s.tables && t in s.threads && s.threads[t].Idle? && u !in s.threads
    requires !s.locked && fd < |s.tables[s.cur]| && s.tables[s.cur][fd] == 0 && fd !in s.claims
    ensures var s' := s.(claims := s.claims[fd := t]); Does(s, Claim(t, fd), s') && Does(s', Release(t, fd), s)
    ensures var s' := At(s, u, Idle); Does(s, Share(u, t), s') && Does(s', Leave(u), s)
  {
    assert s.claims[fd := t] - {fd} == s.claims;
    assert s.threads[u := Idle] - {u} == s.threads;
    forall i {:trigger s.claims[i]} | i in s.claims ensures s.claims[i] != u { assert i in s.claims; }
  }

  /** While the lock is held, nobody else claims, gives back, installs or closes. */
  lemma LockExcludes(s: State, step: Step, s': State)
    requires Inv(s) && Does(s, step, s') && s.locked
    ensures s'.claims == s.claims && s'.installed == s.installed
  {
    hide TableOk, Slot;
    var r :| r in s.threads && (s.threads[r].Copying? || s.threads[r].Published?);
    CurrentThere(s);
    assert ThreadOk(s, r, s.threads[r]);
    if step.CopySlot? { SlotSame(s, s.threads[step.t].table, s.threads[step.t].i); }
  }

  lemma SlotSame(s: State, id: int, i: nat)
    requires id in s.tables
    ensures forall file :: Slot(s, id, i, file).installed == s.installed && Slot(s, id, i, file).claims == s.claims
  {
  }
}
