/**
 Growing the descriptor table while files are installed without a lock. A step is one load or store outside the
 file lock, one slot of the copy under it, or one short section under it; any number of threads share the table.
 */
module FdResize {

  /** Where a thread is in __fd_install or expand_fdtable. */
  datatype Pc =
    | Idle
    | Checked(fd: nat, file: int)              // in its RCU section, has seen no resize
    | Loaded(fd: nat, file: int, table: int)   // and has loaded files->fdt
    | Slow(fd: nat, file: int)                 // has seen a resize, wants the lock
    | Allocating(nr: nat)                      // resize_in_progress is set, the lock is dropped
    | Syncing(nr: nat, table: int, waiting: set<int>)  // in synchronize_sched
    | Synced(nr: nat, table: int)              // wants the lock back
    | Copying(nr: nat, table: int, i: nat)     // holds the lock
    | Published(table: int)                    // holds the lock, files->fdt is stored

  datatype State = State(
    tables: map<int, seq<int>>,      // slots, 0 for NULL
    cur: int,                        // files->fdt
    resizing: bool,                  // resize_in_progress
    locked: bool,                    // file_lock held by the thread that copies
    threads: map<int, Pc>,           // the users of the table
    claims: map<nat, int>,           // descriptors marked open that have no file yet, and whose they are
    installed: map<nat, int>)        // the files of all completed installs that have not been closed

  ghost predicate Init(s: State) {
    && s.cur in s.tables && (forall i :: 0 <= i < |s.tables[s.cur]| ==> s.tables[s.cur][i] == 0)
    && !s.resizing && !s.locked && s.claims == map[] && s.installed == map[]
    && forall t {:trigger s.threads[t]} :: t in s.threads ==> s.threads[t].Idle?
  }

  datatype Step =
    | Share(t: int, u: int)
    | Leave(t: int)
    | Claim(t: int, fd: nat)
    | Release(t: int, fd: nat)
    | StartInstall(t: int, fd: nat, file: int)
    | LoadTable(t: int)
    | Store(t: int)
    | SlowStore(t: int)
    | Close(t: int, fd: nat)
    | Dup2(t: int, fd: nat, file: int)
    | StartResize(t: int, nr: nat)
    | Alloc(t: int, id: int, slots: seq<int>)
    | AllocFail(t: int)
    | SyncDone(t: int)
    | TakeLock(t: int)
    | CopySlot(t: int)
    | Publish(t: int)
    | Finish(t: int)

  ghost function At(s: State, t: int, pc: Pc): State { s.(threads := s.threads[t := pc]) }

  ghost function Slot(s: State, id: int, i: nat, file: int): State
    requires id in s.tables
  {
    if i < |s.tables[id]| then s.(tables := s.tables[id := s.tables[id][i := file]]) else s
  }

  ghost predicate InSection(pc: Pc) { pc.Checked? || pc.Loaded? }

  ghost predicate Does(s: State, step: Step, s': State) {
    && s.cur in s.tables
    && match step
       case Share(t, u) => u in s.threads && s.threads[u].Idle? && t !in s.threads && s' == At(s, t, Idle)
       case Claim(t, fd) =>
         && t in s.threads && s.threads[t].Idle? && !s.locked && fd < |s.tables[s.cur]| && s.tables[s.cur][fd] == 0 && fd !in s.claims
         && s' == s.(claims := s.claims[fd := t])
       case Leave(t) =>  // the thread ends, or no longer shares the table
         && t in s.threads && s.threads[t].Idle? && (forall fd {:trigger s.claims[fd]} :: fd in s.claims ==> s.claims[fd] != t)
         && s' == s.(threads := s.threads - {t})
       case Release(t, fd) =>  // put_unused_fd
         && t in s.threads && s.threads[t].Idle? && !s.locked && fd in s.claims && s.claims[fd] == t
         && s' == s.(claims := s.claims - {fd})
       case StartInstall(t, fd, file) =>
         && t in s.threads && s.threads[t].Idle? && fd in s.claims && s.claims[fd] == t && file != 0
         && s' == At(s, t, if s.resizing then Slow(fd, file) else Checked(fd, file))
       case LoadTable(t) =>
         && t in s.threads && s.threads[t].Checked?
         && s' == At(s, t, Loaded(s.threads[t].fd, s.threads[t].file, s.cur))
       case Store(t) =>
         && t in s.threads && s.threads[t].Loaded? && s.threads[t].table in s.tables
         && var pc := s.threads[t];
            s' == At(Slot(s, pc.table, pc.fd, pc.file), t, Idle).(claims := s.claims - {pc.fd}, installed := s.installed[pc.fd := pc.file])
       case SlowStore(t) =>
         && t in s.threads && s.threads[t].Slow? && !s.locked
         && var pc := s.threads[t];
            s' == At(Slot(s, s.cur, pc.fd, pc.file), t, Idle).(claims := s.claims - {pc.fd}, installed := s.installed[pc.fd := pc.file])
       case Close(t, fd) =>
         && t in s.threads && s.threads[t].Idle? && !s.locked && fd < |s.tables[s.cur]| && s.tables[s.cur][fd] != 0
         && s' == Slot(s, s.cur, fd, 0).(installed := s.installed - {fd})
       case Dup2(t, fd, file) =>
         && t in s.threads && s.threads[t].Idle? && !s.locked && fd < |s.tables[s.cur]| && fd !in s.claims && file != 0
         && s' == Slot(s, s.cur, fd, file).(installed := s.installed[fd := file])
       case StartResize(t, nr) =>
         && t in s.threads && s.threads[t].Idle? && !s.locked && nr >= |s.tables[s.cur]| && !s.resizing
         && s' == At(s, t, Allocating(nr)).(resizing := true)
       case Alloc(t, id, slots) =>
         && t in s.threads && s.threads[t].Allocating? && id !in s.tables
         && var sharing := s.threads.Keys != {t};  // files->count > 1
            s' == At(s, t, if sharing then Syncing(s.threads[t].nr, id, set u | u in s.threads && InSection(s.threads[u]))
                           else Synced(s.threads[t].nr, id)).(tables := s.tables[id := slots])
       case AllocFail(t) => t in s.threads && s.threads[t].Allocating? && !s.locked && s' == At(s, t, Idle).(resizing := false)
       case SyncDone(t) =>
         && t in s.threads && s.threads[t].Syncing?
         && (forall u {:trigger s.threads[u]} :: u in s.threads && u in s.threads[t].waiting ==> !InSection(s.threads[u]))
         && s' == At(s, t, Synced(s.threads[t].nr, s.threads[t].table))
       case TakeLock(t) =>
         && t in s.threads && s.threads[t].Synced? && !s.locked && s.threads[t].table in s.tables
         && s' == if |s.tables[s.threads[t].table]| <= s.threads[t].nr then At(s, t, Idle).(resizing := false)
                  else At(s, t, Copying(s.threads[t].nr, s.threads[t].table, 0)).(locked := true)
       case CopySlot(t) =>
         && t in s.threads && s.threads[t].Copying? && s.threads[t].table in s.tables && s.threads[t].i < |s.tables[s.threads[t].table]|
         && var pc := s.threads[t];
            var f := if pc.i < |s.tables[s.cur]| then s.tables[s.cur][pc.i] else 0;
            s' == At(Slot(s, pc.table, pc.i, f), t, Copying(pc.nr, pc.table, pc.i + 1))
       case Publish(t) =>
         && t in s.threads && s.threads[t].Copying? && s.threads[t].table in s.tables
         && s.threads[t].i == |s.tables[s.threads[t].table]|
         && s' == At(s, t, Published(s.threads[t].table)).(cur := s.threads[t].table)
       case Finish(t) =>
         && t in s.threads && s.threads[t].Published?
         && s' == At(s, t, Idle).(resizing := false, locked := false)
  }

  ghost predicate Next(s: State, s': State) { exists step :: Does(s, step, s') }

  // ---------------------------------------------------------------- the invariant

  ghost predicate Resizer(pc: Pc) { pc.Allocating? || pc.Syncing? || pc.Synced? || pc.Copying? || pc.Published? }

  /** The published table holds every completed install, and nothing else; claimed slots are empty and owned. */
  ghost predicate TableOk(s: State) {
    && s.cur in s.tables
    && (forall i {:trigger s.tables[s.cur][i]} :: 0 <= i < |s.tables[s.cur]| ==>
          s.tables[s.cur][i] == if i in s.installed then s.installed[i] else 0)
    && (forall i {:trigger i in s.installed} :: i in s.installed ==> i < |s.tables[s.cur]| && s.installed[i] != 0 && i !in s.claims)
    && (forall i {:trigger i in s.claims} :: i in s.claims ==> i < |s.tables[s.cur]| && s.claims[i] in s.threads)
  }

  ghost predicate ThreadOk(s: State, t: int, pc: Pc)
    requires s.cur in s.tables
  {
    match pc
    case Idle => true
    case Checked(fd, file) => fd in s.claims && s.claims[fd] == t && file != 0
    case Loaded(fd, file, table) => fd in s.claims && s.claims[fd] == t && file != 0 && table == s.cur
    case Slow(fd, file) => fd in s.claims && s.claims[fd] == t && file != 0
    case Allocating(nr) => nr >= |s.tables[s.cur]|
    case Syncing(nr, table, waiting) =>
      && nr >= |s.tables[s.cur]| && table in s.tables && table != s.cur
      && forall u {:trigger s.threads[u]} :: u in s.threads && InSection(s.threads[u]) ==> u in waiting
    case Synced(nr, table) => nr >= |s.tables[s.cur]| && table in s.tables && table != s.cur && NoneInSection(s)
    case Copying(nr, table, i) =>
      && nr >= |s.tables[s.cur]| && table in s.tables && table != s.cur && NoneInSection(s)
      && s.locked && i <= |s.tables[table]| && nr < |s.tables[table]|
      && forall j {:trigger s.tables[table][j]} :: 0 <= j < i ==>
           s.tables[table][j] == if j < |s.tables[s.cur]| then s.tables[s.cur][j] else 0
    case Published(table) => s.locked && NoneInSection(s)
  }

  ghost predicate NoneInSection(s: State) {
    forall u {:trigger s.threads[u]} :: u in s.threads ==> !InSection(s.threads[u])
  }

  /** One resize at a time, and only it holds the lock between steps. */
  ghost predicate OneResizer(s: State) {
    && (forall t, u {:trigger s.threads[t], s.threads[u]} ::
          t in s.threads && u in s.threads && t != u && Resizer(s.threads[t]) ==> !Resizer(s.threads[u]))
    && (forall t {:trigger s.threads[t]} :: t in s.threads && Resizer(s.threads[t]) ==> s.resizing)
    && (s.locked ==> exists t :: t in s.threads && (s.threads[t].Copying? || s.threads[t].Published?))
  }

  /** A thread has at most one install under way, so no two threads and no one twice stores to a slot. */
  ghost predicate Inv(s: State) {
    TableOk(s) && OneResizer(s) && forall t {:trigger s.threads[t]} :: t in s.threads ==> ThreadOk(s, t, s.threads[t])
  }

  // ---------------------------------------------------------------- every step keeps it

  /** One thread that is not resizing goes from one state to another, and nothing else changes. */
  lemma MoveKeeps(s: State, t: int, pc: Pc)
    requires Inv(s) && !Resizer(pc) && (t in s.threads ==> !Resizer(s.threads[t])) && ThreadOk(s, t, pc)
    requires InSection(pc) ==> (t in s.threads && InSection(s.threads[t])) || !s.resizing
    ensures Inv(At(s, t, pc))
  {
    var s' := At(s, t, pc);
    assert OneResizer(s') by {
      if s.locked {
        var r :| r in s.threads && (s.threads[r].Copying? || s.threads[r].Published?);
        assert s'.threads[r] == s.threads[r];
      }
    }
    forall u {:trigger s'.threads[u]} | u in s'.threads ensures ThreadOk(s', u, s'.threads[u]) {
      if u != t {
        assert s'.threads[u] == s.threads[u];
        assert ThreadOk(s, u, s.threads[u]);
      }
    }
  }

  lemma ClaimKeeps(s: State, t: int, fd: nat)
    requires Inv(s) && t in s.threads && !s.locked && fd < |s.tables[s.cur]| && s.tables[s.cur][fd] == 0 && fd !in s.claims
    ensures Inv(s.(claims := s.claims[fd := t]))
  {
    var s' := s.(claims := s.claims[fd := t]);
    assert TableOk(s');
    forall u {:trigger s'.threads[u]} | u in s'.threads ensures ThreadOk(s', u, s'.threads[u]) {
      assert ThreadOk(s, u, s.threads[u]);
    }
  }

  lemma ReleaseKeeps(s: State, t: int, fd: nat)
    requires Inv(s) && t in s.threads && s.threads[t].Idle? && fd in s.claims && s.claims[fd] == t
    ensures Inv(s.(claims := s.claims - {fd}))
  {
    var s' := s.(claims := s.claims - {fd});
    assert TableOk(s');
    forall u {:trigger s'.threads[u]} | u in s'.threads ensures ThreadOk(s', u, s'.threads[u]) {
      assert ThreadOk(s, u, s.threads[u]);
    }
  }

  lemma LeaveKeeps(s: State, t: int)
    requires Inv(s) && t in s.threads && s.threads[t].Idle?
    requires forall fd {:trigger s.claims[fd]} :: fd in s.claims ==> s.claims[fd] != t
    ensures Inv(s.(threads := s.threads - {t}))
  {
    var s' := s.(threads := s.threads - {t});
    assert OneResizer(s') by {
      if s.locked {
        var r :| r in s.threads && (s.threads[r].Copying? || s.threads[r].Published?);
        assert s'.threads[r] == s.threads[r];
      }
    }
    forall u {:trigger s'.threads[u]} | u in s'.threads ensures ThreadOk(s', u, s'.threads[u]) {
      assert s'.threads[u] == s.threads[u];
      assert ThreadOk(s, u, s.threads[u]);
    }
  }

  /** An install is completed, in the published table. */
  lemma StoreKeeps(s: State, t: int, fd: nat, file: int)
    requires Inv(s) && t in s.threads && fd in s.claims && s.claims[fd] == t && file != 0 && !Resizer(s.threads[t])
    requires forall u {:trigger s.threads[u]} :: u in s.threads ==> !s.threads[u].Copying?
    requires s.threads[t].Loaded? || s.threads[t].Slow?
    requires s.threads[t].fd == fd
    ensures Inv(At(Slot(s, s.cur, fd, file), t, Idle).(claims := s.claims - {fd}, installed := s.installed[fd := file]))
  {
    var s' := At(Slot(s, s.cur, fd, file), t, Idle).(claims := s.claims - {fd}, installed := s.installed[fd := file]);
    assert TableOk(s');
    assert OneResizer(s') by {
      if s.locked {
        var r :| r in s.threads && (s.threads[r].Copying? || s.threads[r].Published?);
        assert s'.threads[r] == s.threads[r];
      }
    }
    forall u {:trigger s'.threads[u]} | u in s'.threads ensures ThreadOk(s', u, s'.threads[u]) {
      assert ThreadOk(s, u, s.threads[u]);
      if u != t { assert s'.threads[u] == s.threads[u]; }
    }
  }

  lemma NobodyCopies(s: State)
    requires Inv(s)
    ensures !s.locked ==> forall u {:trigger s.threads[u]} :: u in s.threads ==> !s.threads[u].Copying?
    ensures (exists u :: u in s.threads && InSection(s.threads[u])) ==>
      forall u {:trigger s.threads[u]} :: u in s.threads ==> !s.threads[u].Copying?
  {
    forall u {:trigger s.threads[u]} | u in s.threads && s.threads[u].Copying? ensures s.locked && NoneInSection(s) {
      assert ThreadOk(s, u, s.threads[u]);
    }
  }

  /** A slot of a descriptor that nobody is installing is changed under the lock. */
  lemma SetKeeps(s: State, fd: nat, file: int)
    requires Inv(s) && !s.locked && fd < |s.tables[s.cur]| && fd !in s.claims
    ensures Inv(Slot(s, s.cur, fd, file).(installed := if file == 0 then s.installed - {fd} else s.installed[fd := file]))
  {
    var s' := Slot(s, s.cur, fd, file).(installed := if file == 0 then s.installed - {fd} else s.installed[fd := file]);
    NobodyCopies(s);
    assert TableOk(s');
    forall u {:trigger s'.threads[u]} | u in s'.threads ensures ThreadOk(s', u, s'.threads[u]) {
      assert ThreadOk(s, u, s.threads[u]);
    }
  }

  // ---------------------------------------------------------------- the resizer

  lemma StartKeeps(s: State, t: int, nr: nat)
    requires Inv(s) && t in s.threads && s.threads[t].Idle? && !s.resizing && nr >= |s.tables[s.cur]|
    ensures Inv(At(s, t, Allocating(nr)).(resizing := true))
  {
    var s' := At(s, t, Allocating(nr)).(resizing := true);
    forall u {:trigger s'.threads[u]} | u in s'.threads ensures ThreadOk(s', u, s'.threads[u]) {
      assert ThreadOk(s, u, s.threads[u]);
      if u != t { assert s'.threads[u] == s.threads[u]; }
    }
    if s.locked {
      var r :| r in s.threads && (s.threads[r].Copying? || s.threads[r].Published?);
      assert false;
    }
  }

  /** The resize is over. */
  lemma StopKeeps(s: State, t: int)
    requires Inv(s) && t in s.threads && Resizer(s.threads[t])
    ensures Inv(At(s, t, Idle).(resizing := false, locked := false))
  {
    var s' := At(s, t, Idle).(resizing := false, locked := false);
    forall u {:trigger s'.threads[u]} | u in s'.threads ensures ThreadOk(s', u, s'.threads[u]) && (Resizer(s'.threads[u]) ==> false) {
      assert ThreadOk(s, u, s.threads[u]);
      if u != t { assert s'.threads[u] == s.threads[u]; }
    }
  }

  lemma AllocKeeps(s: State, t: int, id: int, slots: seq<int>)
    requires Inv(s) && t in s.threads && s.threads[t].Allocating? && id !in s.tables
    ensures var sharing := s.threads.Keys != {t};
      Inv(At(s, t, if sharing then Syncing(s.threads[t].nr, id, set u | u in s.threads && InSection(s.threads[u]))
                   else Synced(s.threads[t].nr, id)).(tables := s.tables[id := slots]))
  {
    var sharing := s.threads.Keys != {t};
    var s' := At(s, t, if sharing then Syncing(s.threads[t].nr, id, set u | u in s.threads && InSection(s.threads[u]))
                       else Synced(s.threads[t].nr, id)).(tables := s.tables[id := slots]);
    assert TableOk(s');
    forall u {:trigger s'.threads[u]} | u in s'.threads ensures ThreadOk(s', u, s'.threads[u]) {
      assert ThreadOk(s, u, s.threads[u]);
      if u != t { assert s'.threads[u] == s.threads[u]; }
      if !sharing { assert forall v :: v in s.threads ==> v == t; }
    }
    NotLocked(s, t);
  }

  /** The lock is free while the one resizer does not copy. */
  lemma NotLocked(s: State, t: int)
    requires Inv(s) && t in s.threads && (s.threads[t].Allocating? || s.threads[t].Syncing? || s.threads[t].Synced?)
    ensures !s.locked
  {
    if s.locked {
      var r :| r in s.threads && (s.threads[r].Copying? || s.threads[r].Published?);
      assert false;
    }
  }

  /** The grace period is over, or the lock is taken back: the resizer alone moves on. */
  lemma ResizerKeeps(s: State, t: int, pc: Pc, locked: bool)
    requires Inv(s) && t in s.threads && (s.threads[t].Syncing? || s.threads[t].Synced?)
    requires (pc.Synced? && !locked) || (pc.Copying? && locked)
    requires ThreadOk(s.(locked := locked), t, pc)
    ensures Inv(At(s, t, pc).(locked := locked))
  {
    var s' := At(s, t, pc).(locked := locked);
    NotLocked(s, t);
    forall u {:trigger s'.threads[u]} | u in s'.threads ensures ThreadOk(s', u, s'.threads[u]) {
      assert ThreadOk(s, u, s.threads[u]);
      if u != t { assert s'.threads[u] == s.threads[u]; }
    }
    assert OneResizer(s') by { assert s'.threads[t] == pc; }
  }

  lemma TableSame(s: State, s': State)
    requires TableOk(s) && s'.cur == s.cur && s'.cur in s'.tables && s'.tables[s'.cur] == s.tables[s.cur]
    requires s'.claims == s.claims && s'.installed == s.installed && s.threads.Keys <= s'.threads.Keys
    ensures TableOk(s')
  {
  }

  /** The state after one more slot has been copied. */
  ghost function Copied(s: State, t: int): State
    requires s.cur in s.tables && t in s.threads && s.threads[t].Copying? && s.threads[t].table in s.tables
  {
    var pc := s.threads[t];
    var f := if pc.i < |s.tables[s.cur]| then s.tables[s.cur][pc.i] else 0;
    At(Slot(s, pc.table, pc.i, f), t, Copying(pc.nr, pc.table, pc.i + 1))
  }

  lemma CopiedThread(s: State, t: int, u: int)
    requires Inv(s) && s.cur in s.tables && t in s.threads && s.threads[t].Copying? && s.threads[t].table in s.tables && u in s.threads
    requires s.threads[t].i < |s.tables[s.threads[t].table]| && s.threads[t].table != s.cur
    ensures var s' := Copied(s, t); s'.cur in s'.tables && u in s'.threads && ThreadOk(s', u, s'.threads[u])
  {
    hide TableOk;
    assert ThreadOk(s, t, s.threads[t]) && ThreadOk(s, u, s.threads[u]);
    var s' := Copied(s, t);
    forall v {:trigger s'.threads[v]} | v in s'.threads ensures InSection(s'.threads[v]) == InSection(s.threads[v]) {
      if v != t { assert s'.threads[v] == s.threads[v]; }
    }
  }

  lemma CopyKeeps(s: State, t: int)
    requires Inv(s) && s.cur in s.tables && t in s.threads && s.threads[t].Copying? && s.threads[t].i < |s.tables[s.threads[t].table]|
    ensures s.threads[t].table in s.tables && Inv(Copied(s, t))
  {
    hide TableOk;
    assert ThreadOk(s, t, s.threads[t]);
    hide ThreadOk;
    var s' := Copied(s, t);
    TableSame(s, s');
    forall u {:trigger s'.threads[u]} | u in s'.threads ensures ThreadOk(s', u, s'.threads[u]) { CopiedThread(s, t, u); }
    assert OneResizer(s') by {
      assert s'.threads[t].Copying?;
      assert forall v :: v in s.threads && v != t ==> s'.threads[v] == s.threads[v];
    }
  }

  lemma PublishKeeps(s: State, t: int)
    requires Inv(s) && t in s.threads && s.threads[t].Copying? && s.threads[t].i == |s.tables[s.threads[t].table]|
    ensures Inv(At(s, t, Published(s.threads[t].table)).(cur := s.threads[t].table))
  {
    var pc := s.threads[t];
    var s' := At(s, t, Published(pc.table)).(cur := pc.table);
    assert ThreadOk(s, t, pc);
    forall u {:trigger s'.threads[u]} | u in s'.threads ensures ThreadOk(s', u, s'.threads[u]) {
      assert ThreadOk(s, u, s.threads[u]);
      if u != t { assert s'.threads[u] == s.threads[u]; }
    }
    assert OneResizer(s') by { assert s'.threads[t].Published?; }
  }

  // ---------------------------------------------------------------- whole runs

  lemma InstallKeeps(s: State, step: Step, s': State)
    requires Inv(s) && Does(s, step, s') && (step.Store? || step.SlowStore?)
    ensures Inv(s')
  {
    var pc := s.threads[step.t];
    assert ThreadOk(s, step.t, pc);
    NobodyCopies(s);
    StoreKeeps(s, step.t, pc.fd, pc.file);
  }

  lemma GrowKeeps(s: State, step: Step, s': State)
    requires Inv(s) && Does(s, step, s')
    requires step.StartResize? || step.Alloc? || step.AllocFail? || step.SyncDone? || step.TakeLock? || step.CopySlot? ||
      step.Publish? || step.Finish?
    ensures Inv(s')
  {
    hide TableOk, OneResizer;
    var t := step.t;
    assert ThreadOk(s, t, s.threads[t]);
    match step
    case StartResize(_, nr) => StartKeeps(s, t, nr);
    case Alloc(_, id, slots) => AllocKeeps(s, t, id, slots);
    case AllocFail(_) => StopKeeps(s, t);
    case SyncDone(_) => NotLocked(s, t); ResizerKeeps(s, t, s'.threads[t], false);
    case TakeLock(_) =>
      if |s.tables[s.threads[t].table]| <= s.threads[t].nr { StopKeeps(s, t); } else { ResizerKeeps(s, t, s'.threads[t], true); }
    case CopySlot(_) => CopyKeeps(s, t);
    case Publish(_) => PublishKeeps(s, t);
    case Finish(_) => StopKeeps(s, t);
  }

  lemma WalkKeeps(s: State, step: Step, s': State)
    requires Inv(s) && Does(s, step, s') && (step.Share? || step.StartInstall? || step.LoadTable?)
    ensures Inv(s')
  {
    hide TableOk, OneResizer;
    var t := step.t;
    if t in s.threads { assert ThreadOk(s, t, s.threads[t]); }
    MoveKeeps(s, t, s'.threads[t]);
  }

  lemma SlotKeeps(s: State, step: Step, s': State)
    requires Inv(s) && Does(s, step, s') && (step.Close? || step.Dup2?)
    ensures Inv(s')
  {
    hide OneResizer, ThreadOk;
    SetKeeps(s, step.fd, if step.Close? then 0 else step.file);
  }

  lemma StepKeeps(s: State, s': State)
    requires Inv(s) && Next(s, s')
    ensures Inv(s')
  {
    hide TableOk, OneResizer, ThreadOk;
    var step :| Does(s, step, s');
    if step.Share? || step.StartInstall? || step.LoadTable? {
      WalkKeeps(s, step, s');
    } else if step.Store? || step.SlowStore? {
      InstallKeeps(s, step, s');
    } else if step.Close? || step.Dup2? {
      SlotKeeps(s, step, s');
    } else if step.Claim? {
      ClaimKeeps(s, step.t, step.fd);
    } else if step.Release? {
      ReleaseKeeps(s, step.t, step.fd);
    } else if step.Leave? {
      LeaveKeeps(s, step.t);
    } else {
      GrowKeeps(s, step, s');
    }
  }

  ghost predicate Run(states: seq<State>) {
    states != [] && Init(states[0]) && forall i {:trigger states[i]} :: 0 < i < |states| ==> Next(states[i - 1], states[i])
  }

  lemma {:induction false} RunKeeps(states: seq<State>, i: nat)
    requires Run(states) && i < |states|
    ensures Inv(states[i])
  {
    hide Inv, Next;
    if i == 0 {
      InitInv(states[0]);
    } else {
      RunKeeps(states, i - 1);
      assert Next(states[i - 1], states[i]);
      StepKeeps(states[i - 1], states[i]);
    }
  }

  lemma InitInv(s: State)
    requires Init(s)
    ensures Inv(s)
  {
  }

  /** In every state of every run the published table holds every completed install, and nothing else. */
  lemma NoInstallLost(states: seq<State>, i: nat, fd: nat)
    requires Run(states) && i < |states|
    ensures var s := states[i];
      && s.cur in s.tables
      && (fd in s.installed ==> fd < |s.tables[s.cur]| && s.tables[s.cur][fd] == s.installed[fd])
      && (fd < |s.tables[s.cur]| && s.tables[s.cur][fd] != 0 ==> fd in s.installed)
  {
    RunKeeps(states, i);
  }

  /** What the BUG_ONs and the array accesses of __fd_install, expand_fdtable and copy_fdtable ask for holds whenever they are reached. */
  lemma NoBug(states: seq<State>, i: nat, t: int)
    requires Run(states) && i < |states| && t in states[i].threads
    ensures var s := states[i]; var pc := s.threads[t];
      && s.cur in s.tables
      && (pc.Loaded? ==> pc.table in s.tables && pc.fd < |s.tables[pc.table]| && s.tables[pc.table][pc.fd] == 0)
      && (pc.Slow? ==> pc.fd < |s.tables[s.cur]| && s.tables[s.cur][pc.fd] == 0)
      && (pc.Synced? ==> pc.nr >= |s.tables[s.cur]|)
      && (pc.Copying? ==> pc.table in s.tables && |s.tables[pc.table]| > |s.tables[s.cur]|)
  {
    RunKeeps(states, i);
    assert ThreadOk(states[i], t, states[i].threads[t]);
  }
}
