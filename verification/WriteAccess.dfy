/**
 Write access to mounts: any number of writers against making a mount, or the whole superblock, read-only.
 One step is one load or store of the kernel code; the mount lock and s_umount are held by at most one task.
 */
module WriteAccess {

  /** mnt_writers, MNT_WRITE_HOLD and MNT_READONLY of one mount of the superblock. */
  datatype Mnt = Mnt(writers: int, hold: bool, readonly: bool)

  /** Where a task is in __mnt_want_write; a task in any state but Out is counted in mnt_writers. */
  datatype Pc =
    | Out
    | AtHold(m: int)      // counted, about to look at MNT_WRITE_HOLD
    | AtRemount(m: int)   // about to load s_readonly_remount
    | AtMount(m: int)     // about to load MNT_READONLY
    | AtFlags(m: int)     // about to load s_flags
    | Backing(m: int)     // refused, about to be uncounted
    | Writing(m: int)     // has write access
    | Cloning(m: int, flags: bool)  // has write access, in mnt_clone_write

  /** Who holds the mount lock. */
  datatype Admin =
    | Idle
    | MakeHeld(m: int)                 // mnt_make_readonly: MNT_WRITE_HOLD is set
    | MakeRead(m: int, busy: bool)     // the writers have been read
    | MakeStored(m: int, busy: bool)   // MNT_READONLY is set, unless busy
    | Scanning(seen: set<int>)         // sb_prepare_remount_readonly
    | ScanHeld(seen: set<int>, m: int)
    | Clearing(left: set<int>, err: bool)

  /** Who holds s_umount: do_remount with and without MS_BIND. */
  datatype Umount = Free | Bind | Remounting

  /** `removed` is s_remove_count, the inodes without a name that are still in use. */
  datatype State = State(
    mounts: map<int, Mnt>, remount: bool, rdonly: bool, removed: nat, tasks: map<int, Pc>, admin: Admin, umount: Umount)

  ghost predicate Init(s: State) {
    && (forall t {:trigger s.tasks[t]} :: t in s.tasks ==> s.tasks[t].Out?)
    && !s.remount && s.admin.Idle? && s.umount.Free?
    && forall m {:trigger s.mounts[m]} :: m in s.mounts ==> s.mounts[m].writers == 0 && !s.mounts[m].hold
  }

  datatype Step =
    | Want(t: int, x: int)
    | PassHold(t: int)
    | LoadRemount(t: int)
    | LoadMount(t: int)
    | LoadFlags(t: int)
    | GiveUp(t: int)
    | CloneMount(t: int)
    | CloneFlags(t: int)
    | CloneCount(t: int, u: int)
    | CloneFail(t: int)
    | Drop(t: int)
    | AddMount(x: int, readonly: bool)
    | TakeUmount(kind: Umount)
    | ReleaseUmount
    | MakeHold(x: int)
    | MakeLoad
    | MakeStore
    | MakeClear
    | Unmake(x: int)
    | ScanStart
    | ScanSkip(x: int)
    | ScanHold(x: int)
    | ScanLoad
    | ScanCheck
    | ClearHold(x: int)
    | ClearEnd
    | StoreFlags(readonly: bool)
    | Unflag
    | Unlinked
    | Evicted

  ghost function With(s: State, t: int, pc: Pc): State {
    s.(tasks := s.tasks[t := pc])
  }

  ghost function Counted(s: State, m: int, n: int): State
    requires m in s.mounts
  {
    s.(mounts := s.mounts[m := s.mounts[m].(writers := s.mounts[m].writers + n)])
  }

  ghost function Held(s: State, m: int, hold: bool): State
    requires m in s.mounts
  {
    s.(mounts := s.mounts[m := s.mounts[m].(hold := hold)])
  }

  ghost function ReadOnly(s: State, m: int, readonly: bool): State
    requires m in s.mounts
  {
    s.(mounts := s.mounts[m := s.mounts[m].(readonly := readonly)])
  }

  ghost predicate At(s: State, t: int, pc: Pc) { t in s.tasks && s.tasks[t] == pc }

  ghost predicate On(s: State, t: int) { t in s.tasks && !s.tasks[t].Out? && s.tasks[t].m in s.mounts }

  /** The steps of writers. */
  ghost predicate Writes(s: State, step: Step, s': State) {
    match step
    case Want(t, x) => At(s, t, Out) && x in s.mounts && s' == With(Counted(s, x, 1), t, AtHold(x))
    case PassHold(t) => On(s, t) && s.tasks[t].AtHold? && !s.mounts[s.tasks[t].m].hold && s' == With(s, t, AtRemount(s.tasks[t].m))
    case LoadRemount(t) =>
      On(s, t) && s.tasks[t].AtRemount? && s' == With(s, t, if s.remount then Backing(s.tasks[t].m) else AtMount(s.tasks[t].m))
    case LoadMount(t) =>
      && On(s, t) && s.tasks[t].AtMount?
      && s' == With(s, t, if s.mounts[s.tasks[t].m].readonly then Backing(s.tasks[t].m) else AtFlags(s.tasks[t].m))
    case LoadFlags(t) =>
      On(s, t) && s.tasks[t].AtFlags? && s' == With(s, t, if s.rdonly then Backing(s.tasks[t].m) else Writing(s.tasks[t].m))
    case GiveUp(t) => On(s, t) && s.tasks[t].Backing? && s' == With(Counted(s, s.tasks[t].m, -1), t, Out)
    case CloneMount(t) =>
      On(s, t) && s.tasks[t].Writing? && !s.mounts[s.tasks[t].m].readonly && s' == With(s, t, Cloning(s.tasks[t].m, false))
    case CloneFlags(t) =>
      On(s, t) && s.tasks[t].Cloning? && !s.tasks[t].flags && !s.rdonly && s' == With(s, t, Cloning(s.tasks[t].m, true))
    case CloneCount(t, u) =>
      && On(s, t) && s.tasks[t].Cloning? && s.tasks[t].flags && At(s, u, Out)
      && s' == With(With(Counted(s, s.tasks[t].m, 1), u, Writing(s.tasks[t].m)), t, Writing(s.tasks[t].m))
    case CloneFail(t) => On(s, t) && s.tasks[t].Cloning? && s' == With(s, t, Writing(s.tasks[t].m))
    case Drop(t) => On(s, t) && s.tasks[t].Writing? && s' == With(Counted(s, s.tasks[t].m, -1), t, Out)
    case _ => false
  }

  /** The steps of whoever holds s_umount or the mount lock. */
  ghost predicate Administers(s: State, step: Step, s': State) {
    match step
    case AddMount(x, ro) => s.admin.Idle? && x !in s.mounts && s' == s.(mounts := s.mounts[x := Mnt(0, false, ro)])
    case TakeUmount(kind) => s.umount.Free? && !kind.Free? && s' == s.(umount := kind)
    case ReleaseUmount => s.admin.Idle? && !s.remount && s' == s.(umount := Free)
    case MakeHold(x) => s.umount.Bind? && s.admin.Idle? && x in s.mounts && s' == Held(s, x, true).(admin := MakeHeld(x))
    case MakeLoad =>
      && s.admin.MakeHeld? && s.admin.m in s.mounts
      && s' == s.(admin := MakeRead(s.admin.m, s.mounts[s.admin.m].writers > 0))
    case MakeStore =>
      && s.admin.MakeRead? && s.admin.m in s.mounts
      && s' == (if s.admin.busy then s else ReadOnly(s, s.admin.m, true)).(admin := MakeStored(s.admin.m, s.admin.busy))
    case MakeClear => s.admin.MakeStored? && s.admin.m in s.mounts && s' == Held(s, s.admin.m, false).(admin := Idle)
    case Unmake(x) => s.umount.Bind? && s.admin.Idle? && x in s.mounts && s' == ReadOnly(s, x, false)
    case ScanStart =>
      && s.umount.Remounting? && s.admin.Idle? && !s.rdonly && !s.remount && s.removed == 0
      && s' == s.(admin := Scanning({}))
    case ScanSkip(x) =>
      && s.admin.Scanning? && x in s.mounts && x !in s.admin.seen && s.mounts[x].readonly
      && s' == s.(admin := Scanning(s.admin.seen + {x}))
    case ScanHold(x) =>
      && s.admin.Scanning? && x in s.mounts && x !in s.admin.seen && !s.mounts[x].readonly
      && s' == Held(s, x, true).(admin := ScanHeld(s.admin.seen, x))
    case ScanLoad =>
      && s.admin.ScanHeld? && s.admin.m in s.mounts
      && s' == s.(admin := if s.mounts[s.admin.m].writers > 0 then Clearing(s.mounts.Keys, true) else Scanning(s.admin.seen + {s.admin.m}))
    case ScanCheck =>
      && s.admin.Scanning? && s.admin.seen == s.mounts.Keys
      && s' == if s.removed > 0 then s.(admin := Clearing(s.mounts.Keys, true))
               else s.(remount := true, admin := Clearing(s.mounts.Keys, false))
    case ClearHold(x) =>
      s.admin.Clearing? && x in s.admin.left && x in s.mounts && s' == Held(s, x, false).(admin := Clearing(s.admin.left - {x}, s.admin.err))
    case ClearEnd => s.admin.Clearing? && s.admin.left == {} && s' == s.(admin := Idle)
    case StoreFlags(ro) =>
      && s.umount.Remounting? && s.admin.Idle? && (if ro then s.remount || s.rdonly else !s.remount)
      && s' == s.(rdonly := ro)
    case Unflag => s.umount.Remounting? && s.admin.Idle? && s' == s.(remount := false)
    case Unlinked => s' == s.(removed := s.removed + 1)
    case Evicted => s.removed > 0 && s' == s.(removed := s.removed - 1)
    case _ => false
  }

  ghost predicate Takes(s: State, step: Step, s': State) {
    Writes(s, step, s') || Administers(s, step, s')
  }

  ghost predicate Next(s: State, s': State) {
    exists step :: Takes(s, step, s')
  }

  // ---------------------------------------------------------------- the invariant

  /** Tasks counted on `m`. */
  ghost function CountedOn(s: State, m: int): set<int> {
    set t | t in s.tasks && !s.tasks[t].Out? && s.tasks[t].m == m
  }

  ghost predicate HasAccess(pc: Pc) { pc.Writing? || pc.Cloning? }

  /** Past the check of MNT_READONLY. */
  ghost predicate Passed(pc: Pc) { pc.AtFlags? || HasAccess(pc) }

  /** The writers of `m` have been read as none, and its hold is still on. */
  ghost predicate ReadAsNone(s: State, m: int) {
    || (s.admin.MakeRead? && s.admin.m == m && !s.admin.busy)
    || (s.admin.MakeStored? && s.admin.m == m && !s.admin.busy)
    || (s.admin.Scanning? && m in s.admin.seen && m in s.mounts && s.mounts[m].hold)
    || (s.admin.ScanHeld? && m in s.admin.seen && m in s.mounts && s.mounts[m].hold)
  }

  ghost predicate MountOk(s: State, m: int)
    requires m in s.mounts
  {
    && s.mounts[m].writers == |CountedOn(s, m)|
    && ((s.admin.MakeHeld? || s.admin.MakeRead? || s.admin.MakeStored? || s.admin.ScanHeld?) && s.admin.m == m ==> s.mounts[m].hold)
    && ((s.admin.Scanning? || s.admin.ScanHeld?) && m in s.admin.seen ==> s.mounts[m].readonly || s.mounts[m].hold)
    && (s.mounts[m].hold ==>
          match s.admin
          case Idle => false
          case MakeHeld(x) => x == m
          case MakeRead(x, _) => x == m
          case MakeStored(x, _) => x == m
          case Scanning(seen) => m in seen
          case ScanHeld(seen, x) => m in seen || m == x
          case Clearing(left, _) => m in left)
  }

  ghost predicate TaskOk(s: State, pc: Pc) {
    !pc.Out? ==>
      && pc.m in s.mounts
      && (ReadAsNone(s, pc.m) ==> pc.AtHold?)
      && (s.mounts[pc.m].readonly ==> !Passed(pc))
      && (s.remount ==> !Passed(pc) && (pc.AtMount? ==> s.mounts[pc.m].readonly))
      && (s.rdonly ==> !HasAccess(pc))
  }

  ghost predicate AdminOk(s: State) {
    && (s.admin.MakeHeld? || s.admin.MakeRead? || s.admin.MakeStored? ==> s.umount.Bind? && s.admin.m in s.mounts)
    && (s.admin.Scanning? || s.admin.ScanHeld? || s.admin.Clearing? ==> s.umount.Remounting?)
    && (s.admin.ScanHeld? ==> s.admin.m in s.mounts && s.admin.m !in s.admin.seen && !s.mounts[s.admin.m].readonly)
    && (s.remount ==> s.umount.Remounting? && (s.admin.Idle? || s.admin.Clearing?))
    && (s.admin.MakeStored? && !s.admin.busy ==> s.mounts[s.admin.m].readonly)
    && (s.admin.Scanning? || s.admin.ScanHeld? ==> s.admin.seen <= s.mounts.Keys)
    && (s.admin.Clearing? ==> s.admin.left <= s.mounts.Keys)
  }

  ghost predicate Inv(s: State) {
    && AdminOk(s)
    && (forall m {:trigger s.mounts[m]} :: m in s.mounts ==> MountOk(s, m))
    && (forall t {:trigger s.tasks[t]} :: t in s.tasks ==> TaskOk(s, s.tasks[t]))
  }

  // ---------------------------------------------------------------- writers

  /** A counted task goes on, still counted on the same mount. */
  lemma MoveTask(s: State, t: int, pc: Pc)
    requires Inv(s) && On(s, t) && !pc.Out? && pc.m == s.tasks[t].m && TaskOk(s, pc)
    ensures Inv(With(s, t, pc))
  {
    var s' := With(s, t, pc);
    forall m {:trigger s'.mounts[m]} | m in s'.mounts ensures MountOk(s', m) {
      assert s.mounts[m] == s'.mounts[m];
      assert CountedOn(s', m) == CountedOn(s, m);
    }
    forall u {:trigger s'.tasks[u]} | u in s'.tasks ensures TaskOk(s', s'.tasks[u]) {
      assert u != t ==> s'.tasks[u] == s.tasks[u];
    }
  }

  lemma CountInMount(s: State, t: int, x: int, pc: Pc, m: int)
    requires At(s, t, Out) && x in s.mounts && !pc.Out? && pc.m == x && m in s.mounts && MountOk(s, m)
    ensures MountOk(With(Counted(s, x, 1), t, pc), m)
  {
    var s' := With(Counted(s, x, 1), t, pc);
    assert CountedOn(s', m) == CountedOn(s, m) + if m == x then {t} else {};
  }

  lemma CountOutMount(s: State, t: int, m: int)
    requires On(s, t) && s.tasks[t].m in s.mounts && m in s.mounts && MountOk(s, m)
    ensures MountOk(With(Counted(s, s.tasks[t].m, -1), t, Out), m)
  {
    var x := s.tasks[t].m;
    var s' := With(Counted(s, x, -1), t, Out);
    assert CountedOn(s', m) == CountedOn(s, m) - if m == x then {t} else {};
  }

  lemma CountIn(s: State, t: int, x: int, pc: Pc)
    requires Inv(s) && At(s, t, Out) && x in s.mounts && !pc.Out? && pc.m == x && TaskOk(s, pc)
    ensures Inv(With(Counted(s, x, 1), t, pc))
  {
    hide MountOk;
    var s' := With(Counted(s, x, 1), t, pc);
    forall m {:trigger s'.mounts[m]} | m in s'.mounts ensures MountOk(s', m) { CountInMount(s, t, x, pc, m); }
    forall u {:trigger s'.tasks[u]} | u in s'.tasks ensures TaskOk(s', s'.tasks[u]) {
      assert u != t ==> s'.tasks[u] == s.tasks[u];
    }
  }

  lemma CountOut(s: State, t: int)
    requires Inv(s) && On(s, t)
    ensures Inv(With(Counted(s, s.tasks[t].m, -1), t, Out))
  {
    hide MountOk;
    var x := s.tasks[t].m;
    var s' := With(Counted(s, x, -1), t, Out);
    forall m {:trigger s'.mounts[m]} | m in s'.mounts ensures MountOk(s', m) { CountOutMount(s, t, m); }
    forall u {:trigger s'.tasks[u]} | u in s'.tasks ensures TaskOk(s', s'.tasks[u]) {
      assert u != t ==> s'.tasks[u] == s.tasks[u];
    }
  }

  lemma CloneKeeps(s: State, t: int, u: int)
    requires Inv(s) && On(s, t) && s.tasks[t].Cloning? && At(s, u, Out)
    ensures Inv(With(With(Counted(s, s.tasks[t].m, 1), u, Writing(s.tasks[t].m)), t, Writing(s.tasks[t].m)))
  {
    hide MountOk;
    var m := s.tasks[t].m;
    assert TaskOk(s, s.tasks[t]);
    CountIn(s, u, m, Writing(m));
    MoveTask(With(Counted(s, m, 1), u, Writing(m)), t, Writing(m));
  }

  lemma WritesKeeps(s: State, step: Step, s': State)
    requires Inv(s) && Writes(s, step, s')
    ensures Inv(s')
  {
    hide MountOk, Counted, CountedOn;
    match step
    case Want(t, x) => CountIn(s, t, x, AtHold(x));
    case GiveUp(t) => CountOut(s, t);
    case Drop(t) => CountOut(s, t);
    case CloneCount(t, u) => CloneKeeps(s, t, u);
    case PassHold(t) => LoadKeeps(s, step, s');
    case LoadRemount(t) => LoadKeeps(s, step, s');
    case LoadMount(t) => LoadKeeps(s, step, s');
    case LoadFlags(t) => LoadKeeps(s, step, s');
    case CloneMount(t) => LoadKeeps(s, step, s');
    case CloneFlags(t) => LoadKeeps(s, step, s');
    case CloneFail(t) => LoadKeeps(s, step, s');
  }

  lemma LoadKeeps(s: State, step: Step, s': State)
    requires Inv(s) && Writes(s, step, s')
    requires step.PassHold? || step.LoadRemount? || step.LoadMount? || step.LoadFlags? || step.CloneMount? ||
      step.CloneFlags? || step.CloneFail?
    ensures Inv(s')
  {
    hide MountOk, CountedOn;
    var t := step.t;
    assert TaskOk(s, s.tasks[t]);
    if step.PassHold? { HoldIsOn(s, s.tasks[t].m); }
    MoveTask(s, t, s'.tasks[t]);
  }

  /** Writers that are read as none are held. */
  lemma HoldIsOn(s: State, m: int)
    requires Inv(s) && m in s.mounts
    ensures ReadAsNone(s, m) ==> s.mounts[m].hold
  {
    assert MountOk(s, m);
  }

  // ---------------------------------------------------------------- making read-only

  /** Only flags, locks or the mount list have changed, and every mount and task is still in order. */
  lemma AdminInv(s: State, s': State)
    requires Inv(s) && s'.tasks == s.tasks && AdminOk(s')
    requires forall m {:trigger s'.mounts[m]} :: m in s'.mounts ==> MountOk(s', m)
    requires forall t {:trigger s.tasks[t]} :: t in s.tasks ==> TaskOk(s', s.tasks[t])
    ensures Inv(s')
  {
    hide MountOk, TaskOk;
  }

  lemma NoneCounted(s: State, m: int, t: int)
    requires Inv(s) && m in s.mounts && s.mounts[m].writers <= 0 && t in s.tasks
    ensures !s.tasks[t].Out? ==> s.tasks[t].m != m
  {
    assert MountOk(s, m);
    assert t in CountedOn(s, m) ==> CountedOn(s, m) - {t} < CountedOn(s, m);
  }

  lemma MakeKeeps(s: State, step: Step, s': State)
    requires Inv(s) && Administers(s, step, s') && (step.MakeHold? || step.MakeLoad? || step.MakeStore? || step.MakeClear? || step.Unmake?)
    ensures Inv(s')
  {
    forall m {:trigger s'.mounts[m]} | m in s'.mounts ensures MountOk(s', m) {
      assert MountOk(s, m);
      assert CountedOn(s', m) == CountedOn(s, m);
    }
    forall t {:trigger s.tasks[t]} | t in s.tasks ensures TaskOk(s', s.tasks[t]) {
      assert TaskOk(s, s.tasks[t]);
      if step.MakeLoad? && s.mounts[s.admin.m].writers <= 0 { NoneCounted(s, s.admin.m, t); }
    }
    AdminInv(s, s');
  }

  lemma ScanKeeps(s: State, step: Step, s': State)
    requires Inv(s) && Administers(s, step, s')
    requires step.ScanStart? || step.ScanSkip? || step.ScanHold? || step.ScanLoad? || step.ScanCheck?
    ensures Inv(s')
  {
    forall m {:trigger s'.mounts[m]} | m in s'.mounts ensures MountOk(s', m) {
      assert MountOk(s, m);
      assert CountedOn(s', m) == CountedOn(s, m);
    }
    forall t {:trigger s.tasks[t]} | t in s.tasks ensures TaskOk(s', s.tasks[t]) {
      assert TaskOk(s, s.tasks[t]);
      if step.ScanLoad? && s.mounts[s.admin.m].writers <= 0 { NoneCounted(s, s.admin.m, t); }
      if step.ScanCheck? && !s.tasks[t].Out? { assert MountOk(s, s.tasks[t].m); }
    }
    AdminInv(s, s');
  }

  lemma OtherKeeps(s: State, step: Step, s': State)
    requires Inv(s) && Administers(s, step, s')
    requires step.AddMount? || step.TakeUmount? || step.ReleaseUmount? || step.ClearHold? || step.ClearEnd? ||
      step.StoreFlags? || step.Unflag? || step.Unlinked? || step.Evicted?
    ensures Inv(s')
  {
    forall m {:trigger s'.mounts[m]} | m in s'.mounts ensures MountOk(s', m) {
      assert CountedOn(s', m) == CountedOn(s, m);
      if step.AddMount? && m == step.x {
        assert forall t :: t in s.tasks && !s.tasks[t].Out? ==> TaskOk(s, s.tasks[t]);
        assert CountedOn(s, m) == {};
      } else {
        assert MountOk(s, m);
      }
    }
    forall t {:trigger s.tasks[t]} | t in s.tasks ensures TaskOk(s', s.tasks[t]) {
      assert TaskOk(s, s.tasks[t]);
    }
    AdminInv(s, s');
  }

  lemma StepKeeps(s: State, s': State)
    requires Inv(s) && Next(s, s')
    ensures Inv(s')
  {
    hide Inv;
    var step :| Takes(s, step, s');
    if Writes(s, step, s') {
      WritesKeeps(s, step, s');
    } else if step.MakeHold? || step.MakeLoad? || step.MakeStore? || step.MakeClear? || step.Unmake? {
      MakeKeeps(s, step, s');
    } else if step.ScanStart? || step.ScanSkip? || step.ScanHold? || step.ScanLoad? || step.ScanCheck? {
      ScanKeeps(s, step, s');
    } else {
      OtherKeeps(s, step, s');
    }
  }

  // ---------------------------------------------------------------- whole runs

  ghost predicate Run(states: seq<State>) {
    states != [] && Init(states[0]) && forall i {:trigger states[i]} :: 0 < i < |states| ==> Next(states[i - 1], states[i])
  }

  lemma InitInv(s: State)
    requires Init(s)
    ensures Inv(s)
  {
    forall m {:trigger s.mounts[m]} | m in s.mounts ensures MountOk(s, m) {
      forall t ensures t !in CountedOn(s, m) { assert t in s.tasks ==> s.tasks[t].Out?; }
      assert CountedOn(s, m) == {};
    }
  }

  lemma {:induction false} RunKeeps(states: seq<State>, i: nat)
    requires Run(states) && i < |states|
    ensures Inv(states[i])
  {
    hide Inv, Init, Next;
    if i == 0 {
      InitInv(states[0]);
    } else {
      RunKeeps(states, i - 1);
      assert Next(states[i - 1], states[i]);
      StepKeeps(states[i - 1], states[i]);
    }
  }

  /** In every state of every run: nobody has write access to a read-only mount, nor to any mount of a superblock that is
      read-only or being remounted read-only. */
  lemma NoWriterWhileReadOnly(states: seq<State>, i: nat, t: int)
    requires Run(states) && i < |states| && t in states[i].tasks && HasAccess(states[i].tasks[t])
    ensures var s := states[i]; s.tasks[t].m in s.mounts && !s.mounts[s.tasks[t].m].readonly && !s.remount && !s.rdonly
  {
    RunKeeps(states, i);
    assert TaskOk(states[i], states[i].tasks[t]);
  }

  /** The number of writers is exact, so it is zero if and only if nobody is counted. */
  lemma WritersExact(states: seq<State>, i: nat, m: int)
    requires Run(states) && i < |states| && m in states[i].mounts
    ensures states[i].mounts[m].writers == |CountedOn(states[i], m)|
  {
    RunKeeps(states, i);
    assert MountOk(states[i], m);
  }

  /** Were MNT_READONLY cleared without s_umount, a writer that has already seen no remount could slip in. */
  ghost predicate SlipsIn(s: State, t: int, x: int) {
    && Inv(s) && s.remount && At(s, t, AtMount(x)) && x in s.mounts
    && var s1 := ReadOnly(s, x, false);
       var s2 := With(s1, t, AtFlags(x));
       var s3 := With(s2, t, Writing(x));
       Writes(s1, LoadMount(t), s2) && Writes(s2, LoadFlags(t), s3) && s3.remount && HasAccess(s3.tasks[t])
  }

  lemma UnmakeNeedsUmount()
    ensures SlipsIn(State(map[1 := Mnt(1, false, true)], true, false, 0, map[7 := AtMount(1)], Idle, Remounting), 7, 1)
  {
    var s := State(map[1 := Mnt(1, false, true)], true, false, 0, map[7 := AtMount(1)], Idle, Remounting);
    assert CountedOn(s, 1) == {7};
    assert Inv(s);
  }
}
