/** Whole calls in runs of the write access protocol: what they come to, and that nobody waits for nothing. */
module WriteCalls {
  import opened WriteAccess

  /** A run with the steps it takes. */
  ghost predicate Trace(states: seq<State>, steps: seq<Step>) {
    && |states| == |steps| + 1 && Init(states[0])
    && forall i {:trigger steps[i]} :: 0 <= i < |steps| ==> Takes(states[i], steps[i], states[i + 1])
  }

  lemma TraceKeeps(states: seq<State>, steps: seq<Step>, i: nat)
    requires Trace(states, steps) && i < |states|
    ensures Inv(states[i]) && (i < |steps| ==> Takes(states[i], steps[i], states[i + 1]))
  {
    hide Init, Takes, Inv;
    forall j {:trigger states[j]} | 0 < j < |states| ensures Next(states[j - 1], states[j]) {
      assert Takes(states[j - 1], steps[j - 1], states[j]);
    }
    RunKeeps(states, i);
  }

  // ---------------------------------------------------------------- mnt_make_readonly

  ghost predicate Making(s: State, m: int) {
    (s.admin.MakeHeld? || s.admin.MakeRead? || s.admin.MakeStored?) && s.admin.m == m && m in s.mounts
  }

  /** Writers change neither flags nor who holds the locks. */
  lemma WritesFrame(s: State, step: Step, s': State, m: int)
    requires Writes(s, step, s') && m in s.mounts
    ensures s'.admin == s.admin && s'.remount == s.remount && s'.rdonly == s.rdonly && s'.mounts.Keys == s.mounts.Keys
    ensures s'.mounts[m].readonly == s.mounts[m].readonly
  {
    match step
    case Want(t, x) =>
    case CloneCount(t, u) =>
    case GiveUp(t) =>
    case Drop(t) =>
    case _ =>
  }

  /** Which steps change MNT_READONLY of a mount. */
  lemma ReadOnlyChanges(s: State, step: Step, s': State, m: int)
    requires Administers(s, step, s') && m in s.mounts
    ensures m in s'.mounts
    ensures s'.mounts[m].readonly ==
      if step == Unmake(m) then false
      else if step == MakeStore && s.admin.MakeRead? && s.admin.m == m then !s.admin.busy || s.mounts[m].readonly
      else s.mounts[m].readonly
  {
    match step
    case AddMount(x, ro) =>
    case MakeHold(x) =>
    case MakeStore =>
    case MakeClear =>
    case Unmake(x) =>
    case ScanHold(x) =>
    case ClearHold(x) =>
    case _ =>
  }

  /** Who holds the mount lock for mnt_make_readonly goes on alone. */
  lemma MakeAlone(s: State, step: Step, s': State, m: int)
    requires AdminOk(s) && Administers(s, step, s') && Making(s, m)
    ensures !step.MakeLoad? && !step.MakeStore? && !step.MakeClear? ==> s'.admin == s.admin
    ensures step.MakeLoad? ==> s' == s.(admin := MakeRead(m, s.mounts[m].writers > 0)) && s.admin.MakeHeld?
    ensures step.MakeStore? ==> s.admin.MakeRead? && s'.admin == MakeStored(m, s.admin.busy)
    ensures step.MakeClear? ==> s.admin.MakeStored? && s'.admin.Idle? && m in s'.mounts && !s'.mounts[m].hold
  {
    hide ReadOnly;
  }

  /** Nobody else gets between the steps of mnt_make_readonly. */
  lemma MakeStep(s: State, step: Step, s': State, m: int)
    requires Inv(s) && Takes(s, step, s') && Making(s, m)
    ensures m in s'.mounts
    ensures !step.MakeLoad? && !step.MakeStore? && !step.MakeClear? ==> s'.admin == s.admin
    ensures step.MakeLoad? ==> s'.admin == MakeRead(m, CountedOn(s, m) != {}) && s.admin.MakeHeld?
    ensures step.MakeStore? ==> s.admin.MakeRead? && s'.admin == MakeStored(m, s.admin.busy)
    ensures step.MakeClear? ==> s.admin.MakeStored? && s'.admin.Idle? && !s'.mounts[m].hold
    ensures s'.mounts[m].readonly == (s.mounts[m].readonly || (step.MakeStore? && s.admin.MakeRead? && !s.admin.busy))
  {
    assert AdminOk(s) && s.mounts[m].writers == |CountedOn(s, m)| by { assert MountOk(s, m); }
    hide *;
    if Writes(s, step, s') {
      NotAdmin(s, step, s');
      WritesFrame(s, step, s', m);
    } else {
      MakeAlone(s, step, s', m);
      ReadOnlyChanges(s, step, s', m);
    }
  }

  lemma NotAdmin(s: State, step: Step, s': State)
    requires Writes(s, step, s')
    ensures !step.MakeLoad? && !step.MakeStore? && !step.MakeClear? && !step.Unmake?
  {
  }

  /** From MakeHold at `a` up to `k` the call has not returned. */
  ghost predicate InMake(steps: seq<Step>, a: nat, k: nat, m: int) {
    a < k <= |steps| && steps[a] == MakeHold(m) && forall i {:trigger steps[i]} :: a < i < k ==> steps[i] != MakeClear
  }

  /** How far the call is: `l` is where it read the writers, if it has. */
  ghost predicate MakeAt(states: seq<State>, steps: seq<Step>, a: nat, k: nat, m: int, l: nat)
    requires a < k < |states| == |steps| + 1
  {
    && Making(states[k], m) && m in states[a].mounts
    && var s, ro := states[k], states[a].mounts[m].readonly;
       if s.admin.MakeHeld? then s.mounts[m].readonly == ro
       else
         && a < l < k && steps[l] == MakeLoad && s.admin.busy == (CountedOn(states[l], m) != {})
         && s.mounts[m].readonly == (ro || (s.admin.MakeStored? && !s.admin.busy))
  }

  lemma {:induction false} MakeGoes(states: seq<State>, steps: seq<Step>, a: nat, k: nat, m: int) returns (l: nat)
    requires Trace(states, steps) && InMake(steps, a, k, m)
    ensures MakeAt(states, steps, a, k, m, l)
  {
    hide Inv, Init, Takes, Making, CountedOn;
    TraceKeeps(states, steps, k - 1);
    if k == a + 1 {
      l := 0;
      MakeBegins(states[a], m, states[k]);
    } else {
      l := MakeGoes(states, steps, a, k - 1, m);
      MakeStep(states[k - 1], steps[k - 1], states[k], m);
      if steps[k - 1] == MakeLoad { l := k - 1; }
      StillMaking(states[k - 1], states[k], m);
    }
  }

  lemma StillMaking(s: State, s': State, m: int)
    requires Making(s, m) && m in s'.mounts
    requires s'.admin == s.admin || s'.admin.MakeRead? || s'.admin.MakeStored?
    requires s'.admin != s.admin ==> s'.admin.m == m
    ensures Making(s', m)
  {
  }

  lemma MakeBegins(s: State, m: int, s': State)
    requires Takes(s, MakeHold(m), s')
    ensures Making(s', m) && s'.admin.MakeHeld? && m in s.mounts && s'.mounts[m].readonly == s.mounts[m].readonly
  {
  }

  /**
   mnt_make_readonly: the mount is read-only afterwards if nobody was counted on it when the writers were read, and otherwise
   as it was before; the hold is off again.
   */
  lemma MakeExact(states: seq<State>, steps: seq<Step>, a: nat, b: nat, m: int)
    requires Trace(states, steps) && b < |steps| && InMake(steps, a, b, m) && steps[b] == MakeClear
    ensures m in states[a].mounts && m in states[b + 1].mounts && !states[b + 1].mounts[m].hold
    ensures exists l {:trigger states[l]} ::
      a < l < b && steps[l] == MakeLoad && states[b + 1].mounts[m].readonly == (states[a].mounts[m].readonly || CountedOn(states[l], m) == {})
  {
    hide Inv, Init, Takes, CountedOn;
    var l := MakeGoes(states, steps, a, b, m);
    TraceKeeps(states, steps, b);
    MakeStep(states[b], steps[b], states[b + 1], m);
    assert states[l] == states[l];
  }

  /** A read-only mount stays read-only until it is unmade. */
  lemma {:induction false} StaysReadOnly(states: seq<State>, steps: seq<Step>, i: nat, j: nat, m: int)
    requires Trace(states, steps) && i <= j < |states| && m in states[i].mounts && states[i].mounts[m].readonly
    requires forall k {:trigger steps[k]} :: i <= k < j ==> steps[k] != Unmake(m)
    ensures m in states[j].mounts && states[j].mounts[m].readonly
    decreases j
  {
    hide Inv, Init, Writes, Administers;
    if i < j {
      StaysReadOnly(states, steps, i, j - 1, m);
      TraceKeeps(states, steps, j - 1);
      if Writes(states[j - 1], steps[j - 1], states[j]) {
        WritesFrame(states[j - 1], steps[j - 1], states[j], m);
      } else {
        assert Administers(states[j - 1], steps[j - 1], states[j]);
        ReadOnlyChanges(states[j - 1], steps[j - 1], states[j], m);
      }
    }
  }

  // ---------------------------------------------------------------- sb_prepare_remount_readonly

  /** From ScanStart at `a` up to `k` the call has not returned. */
  ghost predicate InScan(steps: seq<Step>, a: nat, k: nat) {
    a < k <= |steps| && steps[a] == ScanStart && forall i {:trigger steps[i]} :: a < i < k ==> steps[i] != ClearEnd
  }

  /** Step `i` does not make the scan fail: nobody is counted on the mount whose writers it reads, and no inode is removed. */
  ghost predicate Harmless(states: seq<State>, steps: seq<Step>, i: nat)
    requires i < |steps| < |states|
  {
    && (steps[i].ScanLoad? ==> states[i].admin.ScanHeld? && CountedOn(states[i], states[i].admin.m) == {})
    && (steps[i].ScanCheck? ==> states[i].removed == 0)
  }

  ghost predicate AllHarmless(states: seq<State>, steps: seq<Step>, a: nat, k: nat)
    requires a < k <= |steps| < |states|
  {
    forall i {:trigger Harmless(states, steps, i)} :: a < i < k ==> Harmless(states, steps, i)
  }

  ghost predicate Scans(s: State, fine: bool) {
    (s.admin.Scanning? || s.admin.ScanHeld?) && !s.remount && fine
  }

  ghost predicate Ends(s: State, fine: bool) {
    s.admin.Clearing? && s.remount == fine
  }

  /** One step while the scan is on; `harmless` says that it finds nothing that makes the scan fail. */
  lemma ScanStep(s: State, step: Step, s': State, fine: bool, harmless: bool)
    requires Inv(s) && Administers(s, step, s') && (Scans(s, fine) || Ends(s, fine)) && step != ClearEnd
    requires harmless <==>
      && (step.ScanLoad? ==> s.admin.ScanHeld? && CountedOn(s, s.admin.m) == {})
      && (step.ScanCheck? ==> s.removed == 0)
    ensures Scans(s', fine && harmless) || Ends(s', fine && harmless)
  {
    hide TaskOk;
    if step.ScanLoad? { assert MountOk(s, s.admin.m); }
  }

  lemma {:induction false} ScanGoes(states: seq<State>, steps: seq<Step>, a: nat, k: nat)
    requires Trace(states, steps) && InScan(steps, a, k)
    ensures Scans(states[k], AllHarmless(states, steps, a, k)) || Ends(states[k], AllHarmless(states, steps, a, k))
  {
    hide Inv, Init, Writes, Administers, CountedOn, Harmless, Scans, Ends;
    TraceKeeps(states, steps, k - 1);
    if k == a + 1 {
      ScanBegins(states[a], states[k]);
    } else {
      ScanGoes(states, steps, a, k - 1);
      var fine, harmless := AllHarmless(states, steps, a, k - 1), Harmless(states, steps, k - 1);
      OneMoreHarmless(states, steps, a, k);
      HarmlessMeans(states, steps, k - 1);
      if Writes(states[k - 1], steps[k - 1], states[k]) {
        WritesApart(states[k - 1], steps[k - 1], states[k], fine);
      } else {
        assert Administers(states[k - 1], steps[k - 1], states[k]);
        ScanStep(states[k - 1], steps[k - 1], states[k], fine, harmless);
      }
    }
  }

  lemma OneMoreHarmless(states: seq<State>, steps: seq<Step>, a: nat, k: nat)
    requires a + 1 < k <= |steps| < |states|
    ensures AllHarmless(states, steps, a, k) == (AllHarmless(states, steps, a, k - 1) && Harmless(states, steps, k - 1))
  {
    hide Harmless;
    if AllHarmless(states, steps, a, k - 1) && Harmless(states, steps, k - 1) {
      forall i {:trigger Harmless(states, steps, i)} | a < i < k ensures Harmless(states, steps, i) {
        assert i < k - 1 || i == k - 1;
      }
    }
  }

  lemma HarmlessMeans(states: seq<State>, steps: seq<Step>, i: nat)
    requires i < |steps| < |states|
    ensures Harmless(states, steps, i) <==>
      && (steps[i].ScanLoad? ==> states[i].admin.ScanHeld? && CountedOn(states[i], states[i].admin.m) == {})
      && (steps[i].ScanCheck? ==> states[i].removed == 0)
  {
  }

  lemma WritesApart(s: State, step: Step, s': State, fine: bool)
    requires Writes(s, step, s') && (Scans(s, fine) || Ends(s, fine))
    ensures !step.ScanLoad? && !step.ScanCheck? && (Scans(s', fine) || Ends(s', fine))
  {
  }

  lemma ScanBegins(s: State, s': State)
    requires Takes(s, ScanStart, s')
    ensures Scans(s', true)
  {
  }

  /**
   sb_prepare_remount_readonly: s_readonly_remount is set when it returns if and only if nobody was counted on any of the
   mounts whose writers were read, and no inode was removed at the end. No hold is left.
   */
  lemma ScanExact(states: seq<State>, steps: seq<Step>, a: nat, b: nat)
    requires Trace(states, steps) && b < |steps| && InScan(steps, a, b) && steps[b] == ClearEnd
    ensures states[b + 1].remount <==> AllHarmless(states, steps, a, b)
    ensures forall m {:trigger states[b + 1].mounts[m]} :: m in states[b + 1].mounts ==> !states[b + 1].mounts[m].hold
  {
    hide AllHarmless, Init;
    ScanGoes(states, steps, a, b);
    TraceKeeps(states, steps, b);
    TraceKeeps(states, steps, b + 1);
    var s := states[b + 1];
    assert s.admin.Idle?;
    forall m {:trigger s.mounts[m]} | m in s.mounts ensures !s.mounts[m].hold { assert MountOk(s, m); }
  }

  lemma WritesFlags(s: State, step: Step, s': State)
    requires Writes(s, step, s')
    ensures s'.remount == s.remount && s'.rdonly == s.rdonly && !step.StoreFlags?
  {
  }

  lemma AdminFlags(s: State, step: Step, s': State)
    requires Administers(s, step, s')
    ensures s.remount && !step.Unflag? ==> s'.remount
    ensures s'.rdonly == if step.StoreFlags? then step.readonly else s.rdonly
  {
    hide Held, ReadOnly;
    match step
    case MakeHold(x) => HeldFlags(s, x, true);
    case MakeClear => HeldFlags(s, s.admin.m, false);
    case MakeStore => ReadOnlyFlags(s, s.admin.m, true);
    case Unmake(x) => ReadOnlyFlags(s, x, false);
    case ScanHold(x) => HeldFlags(s, x, true);
    case ClearHold(x) => HeldFlags(s, x, false);
    case _ =>
  }

  lemma HeldFlags(s: State, m: int, hold: bool)
    requires m in s.mounts
    ensures Held(s, m, hold).remount == s.remount && Held(s, m, hold).rdonly == s.rdonly
  {
  }

  lemma ReadOnlyFlags(s: State, m: int, readonly: bool)
    requires m in s.mounts
    ensures ReadOnly(s, m, readonly).remount == s.remount && ReadOnly(s, m, readonly).rdonly == s.rdonly
  {
  }

  lemma FlagStep(s: State, step: Step, s': State)
    requires Takes(s, step, s')
    ensures s.remount && !step.Unflag? ==> s'.remount
    ensures s'.rdonly == if step.StoreFlags? then step.readonly else s.rdonly
  {
    hide Writes, Administers;
    if Writes(s, step, s') { WritesFlags(s, step, s'); } else { AdminFlags(s, step, s'); }
  }

  /** The superblock stays under remount until the flag is taken back, and is read-only as it was last stored. */
  lemma {:induction false} FlagsStay(states: seq<State>, steps: seq<Step>, i: nat, j: nat)
    requires Trace(states, steps) && i < j < |states|
    ensures states[i].remount && (forall k {:trigger steps[k]} :: i <= k < j ==> !steps[k].Unflag?) ==> states[j].remount
    ensures (forall k {:trigger steps[k]} :: i < k < j ==> !steps[k].StoreFlags?) ==>
      states[j].rdonly == if steps[i].StoreFlags? then steps[i].readonly else states[i].rdonly
    decreases j
  {
    hide Inv, Init, Takes;
    TraceKeeps(states, steps, j - 1);
    FlagStep(states[j - 1], steps[j - 1], states[j]);
    if i + 1 < j { FlagsStay(states, steps, i, j - 1); }
  }

  // ---------------------------------------------------------------- writers

  /** A task in mnt_want_write on `m`, in a state in which nothing is read-only or about to be. */
  ghost predicate WantsFreely(s: State, t: int, m: int) {
    On(s, t) && s.tasks[t].m == m && !s.remount && !s.rdonly && !s.mounts[m].readonly
  }

  lemma RefusalStep(s: State, step: Step, s': State, t: int, m: int)
    requires Takes(s, step, s') && WantsFreely(s, t, m) && !s.tasks[t].Backing? && WantsFreely(s', t, m)
    ensures !s'.tasks[t].Backing?
  {
    hide Administers;
    if Administers(s, step, s') { AdminApart(s, step, s'); }
  }

  lemma AdminApart(s: State, step: Step, s': State)
    requires Administers(s, step, s')
    ensures s'.tasks == s.tasks
  {
  }

  /** Nobody is refused write access for nothing. */
  lemma {:induction false} RefusedWithReason(states: seq<State>, steps: seq<Step>, i: nat, j: nat, t: int, m: int)
    requires Trace(states, steps) && i <= j < |states| && At(states[i], t, AtHold(m))
    requires forall k {:trigger states[k]} :: i <= k <= j ==> WantsFreely(states[k], t, m)
    ensures t in states[j].tasks && !states[j].tasks[t].Backing?
    decreases j
  {
    hide Inv, Init, Takes;
    if i < j {
      RefusedWithReason(states, steps, i, j - 1, t, m);
      TraceKeeps(states, steps, j - 1);
      RefusalStep(states[j - 1], steps[j - 1], states[j], t, m);
    }
  }

  /** The states of a call without interruption. */
  ghost predicate Calls(states: seq<State>, steps: seq<Step>) {
    |states| == |steps| + 1 && forall i {:trigger steps[i]} :: 0 <= i < |steps| ==> Takes(states[i], steps[i], states[i + 1])
  }

  /** A call goes on. */
  lemma Then(states: seq<State>, steps: seq<Step>, step: Step, s': State) returns (states': seq<State>, steps': seq<Step>)
    requires Calls(states, steps) && states != [] && Takes(states[|states| - 1], step, s')
    ensures states' == states + [s'] && steps' == steps + [step] && Calls(states', steps')
  {
    hide Takes;
    states', steps' := states + [s'], steps + [step];
  }

  /** The loads of mnt_want_write, from the first to the last one that matters. */
  lemma Checked(s: State, t: int, m: int) returns (states: seq<State>, steps: seq<Step>)
    requires At(s, t, AtRemount(m)) && m in s.mounts
    ensures Calls(states, steps) && states != [] && states[0] == s
    ensures states[|states| - 1] == With(s, t, if !s.remount && !s.rdonly && !s.mounts[m].readonly then Writing(m) else Backing(m))
  {
    hide Calls;
    states, steps := [s], [];
    assert Calls([s], []) by { NoCall(s); }
    if s.remount { states, steps := Then(states, steps, LoadRemount(t), With(s, t, Backing(m))); return; }
    states, steps := Then(states, steps, LoadRemount(t), With(s, t, AtMount(m)));
    if s.mounts[m].readonly { states, steps := Then(states, steps, LoadMount(t), With(s, t, Backing(m))); return; }
    states, steps := Then(states, steps, LoadMount(t), With(s, t, AtFlags(m)));
    states, steps := Then(states, steps, LoadFlags(t), With(s, t, if s.rdonly then Backing(m) else Writing(m)));
  }

  lemma NoCall(s: State)
    ensures Calls([s], [])
  {
  }

  lemma Joined(states: seq<State>, steps: seq<Step>, states': seq<State>, steps': seq<Step>)
    requires Calls(states, steps) && Calls(states', steps') && states != [] && states' != [] && states[|states| - 1] == states'[0]
    ensures Calls(states + states'[1..], steps + steps')
    ensures (states + states'[1..])[|states| + |states'| - 2] == states'[|states'| - 1]
  {
    hide Takes;
    var a, b := states + states'[1..], steps + steps';
    forall i {:trigger b[i]} | 0 <= i < |b| ensures Takes(a[i], b[i], a[i + 1]) {
      if i < |steps| {
        assert b[i] == steps[i] && a[i + 1] == states[i + 1];
      } else {
        assert b[i] == steps'[i - |steps|];
      }
    }
  }

  /** mnt_want_write on its own: write access if and only if nothing is read-only; the count goes up with access and not without. */
  lemma WantExact(s: State, t: int, m: int) returns (states: seq<State>, steps: seq<Step>)
    requires At(s, t, Out) && m in s.mounts && !s.mounts[m].hold
    ensures Calls(states, steps) && steps != [] && steps[0] == Want(t, m) && states != [] && states[0] == s
    ensures var s' := states[|states| - 1]; var free := !s.remount && !s.rdonly && !s.mounts[m].readonly;
      && At(s', t, if free then Writing(m) else Out)
      && m in s'.mounts && s'.mounts[m].writers == s.mounts[m].writers + (if free then 1 else 0)
  {
    hide Calls;
    var s1 := With(Counted(s, m, 1), t, AtHold(m));
    var s2 := With(s1, t, AtRemount(m));
    assert Calls([s], []) by { NoCall(s); }
    states, steps := Then([s], [], Want(t, m), s1);
    states, steps := Then(states, steps, PassHold(t), s2);
    var states', steps' := Checked(s2, t, m);
    Joined(states, steps, states', steps');
    states, steps := states + states'[1..], steps + steps';
    var s3 := states[|states| - 1];
    if s3.tasks[t].Backing? {
      states, steps := Then(states, steps, GiveUp(t), With(Counted(s3, m, -1), t, Out));
    }
  }

  /** mnt_clone_write on its own, by a task that has write access, always gives one more. */
  lemma CloneSucceeds(s: State, t: int, u: int, m: int) returns (states: seq<State>, steps: seq<Step>)
    requires Inv(s) && At(s, t, Writing(m)) && At(s, u, Out)
    ensures Calls(states, steps) && states != [] && states[0] == s && steps != [] && steps[|steps| - 1] == CloneCount(t, u)
    ensures var s' := states[|states| - 1];
      At(s', t, Writing(m)) && At(s', u, Writing(m)) && m in s.mounts && m in s'.mounts && s'.mounts[m].writers == s.mounts[m].writers + 1
  {
    assert TaskOk(s, s.tasks[t]);
    var s1 := With(s, t, Cloning(m, false));
    var s2 := With(s1, t, Cloning(m, true));
    return [s, s1, s2, With(With(Counted(s2, m, 1), u, Writing(m)), t, Writing(m))], [CloneMount(t), CloneFlags(t), CloneCount(t, u)];
  }

  /** A task that is counted leaves in one of two ways: by GiveUp when refused, by Drop with write access, which is kept until then. */
  lemma LeavesOnce(s: State, step: Step, s': State, t: int)
    requires Takes(s, step, s') && t in s.tasks && !s.tasks[t].Out?
    ensures t in s'.tasks
    ensures s'.tasks[t].Out? ==> (step == GiveUp(t) && s.tasks[t].Backing?) || (step == Drop(t) && s.tasks[t].Writing?)
    ensures HasAccess(s.tasks[t]) && step != Drop(t) ==> HasAccess(s'.tasks[t]) && s'.tasks[t].m == s.tasks[t].m
  {
    hide Administers, Counted;
    if Administers(s, step, s') { AdminApart(s, step, s'); } else { CountedTasks(s); }
  }

  lemma CountedTasks(s: State)
    ensures forall m, n :: m in s.mounts ==> Counted(s, m, n).tasks == s.tasks
  {
  }

  /** The flags of the superblock change only in a remount of it, and those of a mount only in one of the mount; both under s_umount. */
  lemma FlagsNeedUmount(s: State, step: Step, s': State, m: int)
    requires Inv(s) && Takes(s, step, s') && m in s.mounts
    ensures s'.rdonly != s.rdonly || s'.remount != s.remount ==> s.umount.Remounting?
    ensures m in s'.mounts && (s'.mounts[m].readonly != s.mounts[m].readonly ==> s.umount.Bind?)
  {
    assert AdminOk(s);
    hide Inv, Held, ReadOnly;
    if Writes(s, step, s') {
      WritesFrame(s, step, s', m);
    } else {
      ReadOnlyChanges(s, step, s', m);
      AdminFlags(s, step, s');
      UnderUmount(s, step, s');
    }
  }

  lemma UnderUmount(s: State, step: Step, s': State)
    requires AdminOk(s) && Administers(s, step, s')
    ensures step.StoreFlags? || step.Unflag? || s'.remount != s.remount ==> s.umount.Remounting?
    ensures step.Unmake? || step.MakeStore? ==> s.umount.Bind?
  {
    hide Held, ReadOnly;
    match step
    case MakeHold(x) => HeldFlags(s, x, true);
    case MakeClear => HeldFlags(s, s.admin.m, false);
    case MakeStore => ReadOnlyFlags(s, s.admin.m, true);
    case Unmake(x) => ReadOnlyFlags(s, x, false);
    case ScanHold(x) => HeldFlags(s, x, true);
    case ClearHold(x) => HeldFlags(s, x, false);
    case _ =>
  }

  // ---------------------------------------------------------------- nobody is stuck

  ghost predicate Waits(s: State, t: int) {
    t in s.tasks && s.tasks[t].AtHold? && s.tasks[t].m in s.mounts && s.mounts[s.tasks[t].m].hold
  }

  /** Some step takes `t` further. */
  ghost predicate CanGo(s: State, t: int) {
    exists step, s' :: Writes(s, step, s') && t in s.tasks && t in s'.tasks && s'.tasks[t] != s.tasks[t]
  }

  lemma TaskCanGo(s: State, t: int)
    requires Inv(s) && t in s.tasks && !s.tasks[t].Out?
    ensures CanGo(s, t) || Waits(s, t)
  {
    assert TaskOk(s, s.tasks[t]);
    var m := s.tasks[t].m;
    match s.tasks[t]
    case AtHold(_) => if !Waits(s, t) { assert Writes(s, PassHold(t), With(s, t, AtRemount(m))); }
    case AtRemount(_) => assert Writes(s, LoadRemount(t), With(s, t, if s.remount then Backing(m) else AtMount(m)));
    case AtMount(_) => assert Writes(s, LoadMount(t), With(s, t, if s.mounts[m].readonly then Backing(m) else AtFlags(m)));
    case AtFlags(_) => assert Writes(s, LoadFlags(t), With(s, t, if s.rdonly then Backing(m) else Writing(m)));
    case Backing(_) => assert Writes(s, GiveUp(t), With(Counted(s, m, -1), t, Out));
    case Writing(_) => assert Writes(s, Drop(t), With(Counted(s, m, -1), t, Out));
    case Cloning(_, _) => assert Writes(s, CloneFail(t), With(s, t, Writing(m)));
  }

  /** How many steps the holder of the mount lock has at most before it. */
  ghost function Left(s: State): nat {
    match s.admin
    case Idle => 0
    case MakeStored(_, _) => 1
    case MakeRead(_, _) => 2
    case MakeHeld(_) => 3
    case Clearing(left, _) => 1 + |left|
    case Scanning(seen) => 2 + |s.mounts.Keys| + 2 * |s.mounts.Keys - seen|
    case ScanHeld(seen, m) => 1 + |s.mounts.Keys| + 2 * |s.mounts.Keys - seen|
  }

  /** Some step takes the holder of the mount lock nearer to its end. */
  ghost predicate Finishing(s: State) {
    exists step, s' :: Administers(s, step, s') && Left(s') < Left(s)
  }

  lemma MakeFinishes(s: State)
    requires AdminOk(s) && (s.admin.MakeHeld? || s.admin.MakeRead? || s.admin.MakeStored?)
    ensures Finishing(s)
  {
    var m := s.admin.m;
    match s.admin
    case MakeHeld(_) => assert Administers(s, MakeLoad, s.(admin := MakeRead(m, s.mounts[m].writers > 0)));
    case MakeRead(_, busy) =>
      assert Administers(s, MakeStore, (if busy then s else ReadOnly(s, m, true)).(admin := MakeStored(m, busy)));
    case MakeStored(_, _) => assert Administers(s, MakeClear, Held(s, m, false).(admin := Idle));
  }

  lemma ClearFinishes(s: State)
    requires AdminOk(s) && s.admin.Clearing?
    ensures Finishing(s)
  {
    if forall x :: x !in s.admin.left {
      assert s.admin.left == {};
      assert Administers(s, ClearEnd, s.(admin := Idle));
    } else {
      var x :| x in s.admin.left;
      assert Administers(s, ClearHold(x), Held(s, x, false).(admin := Clearing(s.admin.left - {x}, s.admin.err)));
    }
  }

  lemma Fewer(keys: set<int>, seen: set<int>, x: int)
    requires x in keys && x !in seen
    ensures |keys - (seen + {x})| == |keys - seen| - 1
  {
    assert keys - (seen + {x}) == (keys - seen) - {x};
  }

  lemma CheckFinishes(s: State)
    requires s.admin.Scanning? && s.admin.seen == s.mounts.Keys
    ensures Finishing(s)
  {
    hide Held, ReadOnly;
    var keys := s.mounts.Keys;
    assert keys - keys == {};
    var s' := if s.removed > 0 then s.(admin := Clearing(keys, true)) else s.(remount := true, admin := Clearing(keys, false));
    assert Administers(s, ScanCheck, s');
  }

  lemma SkipFinishes(s: State, x: int)
    requires s.admin.Scanning? && x in s.mounts && x !in s.admin.seen && s.mounts[x].readonly
    ensures Finishing(s)
  {
    Fewer(s.mounts.Keys, s.admin.seen, x);
    assert Administers(s, ScanSkip(x), s.(admin := Scanning(s.admin.seen + {x})));
  }

  lemma HoldFinishes(s: State, x: int)
    requires s.admin.Scanning? && x in s.mounts && x !in s.admin.seen && !s.mounts[x].readonly
    ensures Finishing(s)
  {
    var s' := Held(s, x, true).(admin := ScanHeld(s.admin.seen, x));
    assert s'.mounts.Keys == s.mounts.Keys;
    assert Administers(s, ScanHold(x), s');
  }

  lemma ScanFinishes(s: State)
    requires AdminOk(s) && s.admin.Scanning?
    ensures Finishing(s)
  {
    hide Finishing;
    if forall x :: x in s.mounts ==> x in s.admin.seen {
      assert s.admin.seen == s.mounts.Keys;
      CheckFinishes(s);
    } else {
      var x :| x in s.mounts && x !in s.admin.seen;
      if s.mounts[x].readonly { SkipFinishes(s, x); } else { HoldFinishes(s, x); }
    }
  }

  lemma ScanLoadFinishes(s: State)
    requires AdminOk(s) && s.admin.ScanHeld?
    ensures Finishing(s)
  {
    var keys, seen, m := s.mounts.Keys, s.admin.seen, s.admin.m;
    Fewer(keys, seen, m);
    var s' := s.(admin := if s.mounts[m].writers > 0 then Clearing(keys, true) else Scanning(seen + {m}));
    assert Administers(s, ScanLoad, s');
  }

  /**
   In every state of every run, a task that wants or has write access can go on, or else waits for a hold; and then whoever
   holds the mount lock can go on towards its end.
   */
  lemma NobodyStuck(states: seq<State>, steps: seq<Step>, i: nat, t: int)
    requires Trace(states, steps) && i < |states|
    ensures t in states[i].tasks && !states[i].tasks[t].Out? ==> CanGo(states[i], t) || (Waits(states[i], t) && Finishing(states[i]))
    ensures !states[i].admin.Idle? ==> Finishing(states[i])
  {
    hide Init, Finishing, CanGo;
    TraceKeeps(states, steps, i);
    var s := states[i];
    if t in s.tasks && !s.tasks[t].Out? { TaskCanGo(s, t); }
    if Waits(s, t) { assert MountOk(s, s.tasks[t].m); }
    match s.admin
    case Idle =>
    case Clearing(_, _) => ClearFinishes(s);
    case Scanning(_) => ScanFinishes(s);
    case ScanHeld(_, _) => ScanLoadFinishes(s);
    case _ => MakeFinishes(s);
  }
}
