/** Remounts without interruption: what they come to, and that they leave nothing else behind. */
module WriteRemount {
  import opened WriteAccess
  import opened WriteCalls

  /** A call that leads from `s` to `s'`. */
  ghost predicate Leads(s: State, s': State, states: seq<State>, steps: seq<Step>) {
    Calls(states, steps) && states != [] && states[0] == s && states[|states| - 1] == s'
  }

  lemma Begin(s: State) returns (states: seq<State>, steps: seq<Step>)
    ensures Leads(s, s, states, steps)
  {
    NoCall(s);
    states, steps := [s], [];
  }

  lemma More(s: State, s1: State, states: seq<State>, steps: seq<Step>, step: Step, s2: State)
    returns (states': seq<State>, steps': seq<Step>)
    requires Leads(s, s1, states, steps) && Takes(s1, step, s2)
    ensures Leads(s, s2, states', steps')
  {
    hide Takes, Calls;
    states', steps' := Then(states, steps, step, s2);
  }

  // ---------------------------------------------------------------- one mount

  /** The mount is held and the writers have been read. */
  ghost function Reading(s: State, m: int, busy: bool): State
    requires m in s.mounts
  {
    Held(s, m, true).(umount := Bind, admin := MakeRead(m, busy))
  }

  lemma HoldAndRead(s: State, m: int, busy: bool) returns (states: seq<State>, steps: seq<Step>)
    requires s.umount.Free? && s.admin.Idle? && m in s.mounts && busy == (s.mounts[m].writers > 0)
    ensures Leads(s, Reading(s, m, busy), states, steps)
  {
    hide Leads;
    states, steps := Begin(s);
    var s1 := s.(umount := Bind);
    states, steps := More(s, s, states, steps, TakeUmount(Bind), s1);
    var s2 := Held(s1, m, true).(admin := MakeHeld(m));
    states, steps := More(s, s1, states, steps, MakeHold(m), s2);
    states, steps := More(s, s2, states, steps, MakeLoad, Reading(s, m, busy));
  }

  ghost function Made(s: State, m: int, busy: bool): State
    requires m in s.mounts
  {
    if busy then s else ReadOnly(s, m, true)
  }

  /** MNT_READONLY is stored, unless the mount is busy, and the hold is still on. */
  ghost function Stored(s: State, m: int, busy: bool): State
    requires m in s.mounts
  {
    Held(Made(s, m, busy), m, true).(umount := Bind, admin := MakeStored(m, busy))
  }

  lemma StoreOne(s: State, m: int, busy: bool)
    requires m in s.mounts
    ensures Takes(Reading(s, m, busy), MakeStore, Stored(s, m, busy))
  {
    hide Writes;
    assert Stored(s, m, busy).mounts == (if busy then Reading(s, m, busy) else ReadOnly(Reading(s, m, busy), m, true)).mounts;
  }

  lemma ClearHoldOfOne(s: State, m: int, busy: bool)
    requires s.admin.Idle? && m in s.mounts && !s.mounts[m].hold
    ensures Takes(Stored(s, m, busy), MakeClear, Made(s, m, busy).(umount := Bind))
  {
    hide Writes;
    assert Held(Stored(s, m, busy), m, false).mounts == Made(s, m, busy).mounts;
  }

  lemma Release(s: State)
    requires s.umount.Free? && s.admin.Idle? && !s.remount
    ensures forall kind: Umount :: Takes(s.(umount := kind), ReleaseUmount, s)
  {
    hide Writes;
  }

  /** mnt_make_readonly under s_umount: read-only if nobody is counted on the mount, and otherwise nothing changes. */
  lemma MakeReadOnly(s: State, m: int) returns (states: seq<State>, steps: seq<Step>)
    requires Inv(s) && s.umount.Free? && s.admin.Idle? && m in s.mounts
    ensures Leads(s, if CountedOn(s, m) == {} then ReadOnly(s, m, true) else s, states, steps)
  {
    assert !s.mounts[m].hold && s.mounts[m].writers == |CountedOn(s, m)| && !s.remount by { assert MountOk(s, m); }
    hide Leads, Inv, CountedOn, Takes;
    var busy := CountedOn(s, m) != {};
    states, steps := HoldAndRead(s, m, busy);
    StoreOne(s, m, busy);
    states, steps := More(s, Reading(s, m, busy), states, steps, MakeStore, Stored(s, m, busy));
    ClearHoldOfOne(s, m, busy);
    states, steps := More(s, Stored(s, m, busy), states, steps, MakeClear, Made(s, m, busy).(umount := Bind));
    Release(Made(s, m, busy));
    states, steps := More(s, Made(s, m, busy).(umount := Bind), states, steps, ReleaseUmount, Made(s, m, busy));
  }

  /** __mnt_unmake_readonly under s_umount. */
  lemma MakeWritable(s: State, m: int) returns (states: seq<State>, steps: seq<Step>)
    requires Inv(s) && s.umount.Free? && s.admin.Idle? && m in s.mounts
    ensures Leads(s, ReadOnly(s, m, false), states, steps)
  {
    assert !s.remount by { assert AdminOk(s); }
    hide Leads, Inv, Writes;
    states, steps := Begin(s);
    var s1 := s.(umount := Bind);
    states, steps := More(s, s, states, steps, TakeUmount(Bind), s1);
    states, steps := More(s, s1, states, steps, Unmake(m), ReadOnly(s1, m, false));
    states, steps := More(s, ReadOnly(s1, m, false), states, steps, ReleaseUmount, ReadOnly(s, m, false));
  }

  // ---------------------------------------------------------------- the superblock

  /** The mounts of `H` are held. */
  ghost function HeldAll(s: State, H: set<int>): State {
    s.(mounts := map m | m in s.mounts :: if m in H then s.mounts[m].(hold := true) else s.mounts[m])
  }

  lemma HoldOne(s: State, H: set<int>, x: int)
    requires x in s.mounts
    ensures Held(HeldAll(s, H), x, true) == HeldAll(s, H + {x})
    ensures !s.mounts[x].hold ==> Held(HeldAll(s, H), x, false) == HeldAll(s, H - {x})
  {
    assert Held(HeldAll(s, H), x, true).mounts == HeldAll(s, H + {x}).mounts;
    if !s.mounts[x].hold { assert Held(HeldAll(s, H), x, false).mounts == HeldAll(s, H - {x}).mounts; }
  }

  lemma HoldNone(s: State)
    ensures HeldAll(s, {}) == s
  {
    assert HeldAll(s, {}).mounts == s.mounts;
  }

  /** A superblock that is writable, with nobody counted on a mount that is. */
  ghost predicate Quiet(s: State) {
    && s.umount.Remounting? && s.admin.Idle? && !s.remount && !s.rdonly && s.removed == 0
    && forall m {:trigger s.mounts[m]} :: m in s.mounts ==> !s.mounts[m].hold && (s.mounts[m].readonly || s.mounts[m].writers <= 0)
  }

  ghost function Scanned(s: State, H: set<int>, seen: set<int>): State {
    HeldAll(s, H).(admin := Scanning(seen))
  }

  lemma SkipOne(s: State, H: set<int>, seen: set<int>, x: int)
    requires Quiet(s) && x in s.mounts && x !in seen && s.mounts[x].readonly
    ensures Takes(Scanned(s, H, seen), ScanSkip(x), Scanned(s, H, seen + {x}))
  {
  }

  lemma ScanOne(s: State, H: set<int>, seen: set<int>, x: int)
    requires Quiet(s) && x in s.mounts && x !in seen && !s.mounts[x].readonly
    ensures var held := HeldAll(s, H + {x}).(admin := ScanHeld(seen, x));
      Takes(Scanned(s, H, seen), ScanHold(x), held) && Takes(held, ScanLoad, Scanned(s, H + {x}, seen + {x}))
  {
    hide Writes;
    HoldOne(s, H, x);
  }

  lemma {:induction false} ScanRest(s0: State, s: State, H: set<int>, seen: set<int>, states: seq<State>, steps: seq<Step>)
    returns (H': set<int>, states': seq<State>, steps': seq<Step>)
    requires Quiet(s) && seen <= s.mounts.Keys && H <= seen && Leads(s0, Scanned(s, H, seen), states, steps)
    ensures H' <= s.mounts.Keys && Leads(s0, Scanned(s, H', s.mounts.Keys), states', steps')
    decreases s.mounts.Keys - seen
  {
    hide Leads, Takes, HeldAll, Quiet;
    if forall x :: x in s.mounts ==> x in seen {
      assert seen == s.mounts.Keys;
      H', states', steps' := H, states, steps;
    } else {
      var x :| x in s.mounts && x !in seen;
      if s.mounts[x].readonly {
        SkipOne(s, H, seen, x);
        states', steps' := More(s0, Scanned(s, H, seen), states, steps, ScanSkip(x), Scanned(s, H, seen + {x}));
        H', states', steps' := ScanRest(s0, s, H, seen + {x}, states', steps');
      } else {
        ScanOne(s, H, seen, x);
        var held := HeldAll(s, H + {x}).(admin := ScanHeld(seen, x));
        states', steps' := More(s0, Scanned(s, H, seen), states, steps, ScanHold(x), held);
        states', steps' := More(s0, held, states', steps', ScanLoad, Scanned(s, H + {x}, seen + {x}));
        H', states', steps' := ScanRest(s0, s, H + {x}, seen + {x}, states', steps');
      }
    }
  }

  ghost function Cleared(s: State, H: set<int>, left: set<int>): State {
    HeldAll(s, H).(remount := true, admin := Clearing(left, false))
  }

  lemma ClearOne(s: State, H: set<int>, left: set<int>, x: int)
    requires Quiet(s) && x in left && x in s.mounts
    ensures Takes(Cleared(s, H, left), ClearHold(x), Cleared(s, H - {x}, left - {x}))
  {
    HoldOne(s, H, x);
    assert Held(Cleared(s, H, left), x, false).mounts == Held(HeldAll(s, H), x, false).mounts;
  }

  lemma {:induction false} ClearRest(s0: State, s: State, H: set<int>, left: set<int>, states: seq<State>, steps: seq<Step>)
    returns (states': seq<State>, steps': seq<Step>)
    requires Quiet(s) && H <= left <= s.mounts.Keys && Leads(s0, Cleared(s, H, left), states, steps)
    ensures Leads(s0, Cleared(s, {}, {}), states', steps')
    decreases left
  {
    hide Leads, Takes, HeldAll, Quiet;
    if forall x :: x !in left {
      assert left == {} && H == {};
      states', steps' := states, steps;
    } else {
      var x :| x in left;
      ClearOne(s, H, left, x);
      states', steps' := More(s0, Cleared(s, H, left), states, steps, ClearHold(x), Cleared(s, H - {x}, left - {x}));
      states', steps' := ClearRest(s0, s, H - {x}, left - {x}, states', steps');
    }
  }

  lemma Checked(s: State, H: set<int>)
    requires Quiet(s)
    ensures Takes(Scanned(s, H, s.mounts.Keys), ScanCheck, Cleared(s, H, s.mounts.Keys))
    ensures Takes(Cleared(s, {}, {}), ClearEnd, s.(remount := true))
  {
    assert HeldAll(s, H).mounts.Keys == s.mounts.Keys;
    HoldNone(s);
  }

  /** do_remount_sb to read-only, when nobody writes and no removed inode is in use: the superblock is read-only, and nothing else changes. */
  lemma RemountReadOnly(s: State) returns (states: seq<State>, steps: seq<Step>)
    requires Inv(s) && s.umount.Free? && s.admin.Idle? && !s.rdonly && s.removed == 0
    requires forall m {:trigger s.mounts[m]} :: m in s.mounts ==> s.mounts[m].readonly || CountedOn(s, m) == {}
    ensures Leads(s, s.(rdonly := true), states, steps)
  {
    hide Leads, Calls, CountedOn;
    var q := s.(umount := Remounting);
    assert Quiet(q) by {
      forall m {:trigger s.mounts[m]} | m in s.mounts ensures !s.mounts[m].hold && (s.mounts[m].readonly || s.mounts[m].writers <= 0) {
        assert MountOk(s, m);
      }
    }
    states, steps := Begin(s);
    states, steps := More(s, s, states, steps, TakeUmount(Remounting), q);
    HoldNone(q);
    states, steps := More(s, q, states, steps, ScanStart, Scanned(q, {}, {}));
    var H;
    H, states, steps := ScanRest(s, q, {}, {}, states, steps);
    Checked(q, H);
    states, steps := More(s, Scanned(q, H, q.mounts.Keys), states, steps, ScanCheck, Cleared(q, H, q.mounts.Keys));
    states, steps := ClearRest(s, q, H, q.mounts.Keys, states, steps);
    states, steps := More(s, Cleared(q, {}, {}), states, steps, ClearEnd, q.(remount := true));
    states, steps := StoreAndRelease(s, q, states, steps);
  }

  lemma StoreAndRelease(s: State, q: State, states: seq<State>, steps: seq<Step>) returns (states': seq<State>, steps': seq<Step>)
    requires s.umount.Free? && s.admin.Idle? && !s.remount && q == s.(umount := Remounting)
    requires Leads(s, q.(remount := true), states, steps)
    ensures Leads(s, s.(rdonly := true), states', steps')
  {
    hide Leads;
    var q1 := q.(remount := true);
    var q2 := q1.(rdonly := true);
    states', steps' := More(s, q1, states, steps, StoreFlags(true), q2);
    var q3 := q2.(remount := false);
    states', steps' := More(s, q2, states', steps', Unflag, q3);
    states', steps' := More(s, q3, states', steps', ReleaseUmount, s.(rdonly := true));
  }

  /** do_remount_sb to writable. */
  lemma RemountWritable(s: State) returns (states: seq<State>, steps: seq<Step>)
    requires Inv(s) && s.umount.Free? && s.admin.Idle?
    ensures Leads(s, s.(rdonly := false), states, steps)
  {
    assert !s.remount by { assert AdminOk(s); }
    hide Leads, Inv, Writes;
    states, steps := Begin(s);
    var q := s.(umount := Remounting);
    states, steps := More(s, s, states, steps, TakeUmount(Remounting), q);
    states, steps := More(s, q, states, steps, StoreFlags(false), q.(rdonly := false));
    states, steps := More(s, q.(rdonly := false), states, steps, ReleaseUmount, s.(rdonly := false));
  }

  /** A new mount that is not read-only can be written to if the superblock can. */
  lemma NewMountWritable(s: State, t: int, x: int) returns (states: seq<State>, steps: seq<Step>)
    requires At(s, t, Out) && s.admin.Idle? && x !in s.mounts && !s.remount && !s.rdonly
    ensures Calls(states, steps) && states != [] && states[0] == s && steps != [] && steps[0] == AddMount(x, false)
    ensures At(states[|states| - 1], t, Writing(x))
  {
    hide Calls;
    NoCall(s);
    var s1 := s.(mounts := s.mounts[x := Mnt(0, false, false)]);
    states, steps := Then([s], [], AddMount(x, false), s1);
    var more, moreSteps := WantExact(s1, t, x);
    Joined(states, steps, more, moreSteps);
    states, steps := states + more[1..], steps + moreSteps;
  }

  // ---------------------------------------------------------------- removed inodes

  ghost function Net(steps: seq<Step>): int {
    if steps == [] then 0
    else
      var last := steps[|steps| - 1];
      Net(steps[..|steps| - 1]) + (if last.Unlinked? then 1 else if last.Evicted? then -1 else 0)
  }

  lemma RemovedStep(s: State, step: Step, s': State)
    requires Takes(s, step, s')
    ensures s'.removed == s.removed + (if step.Unlinked? then 1 else if step.Evicted? then -1 else 0)
  {
    hide Writes;
    if Writes(s, step, s') { RemovedWrites(s, step, s'); }
  }

  lemma RemovedWrites(s: State, step: Step, s': State)
    requires Writes(s, step, s')
    ensures s'.removed == s.removed && !step.Unlinked? && !step.Evicted?
  {
  }

  /** s_remove_count is the number of inodes that lost their last name and have not been evicted since. */
  lemma {:induction false} RemovedExact(states: seq<State>, steps: seq<Step>, i: nat)
    requires Trace(states, steps) && i < |states|
    ensures states[i].removed == states[0].removed + Net(steps[..i])
  {
    hide Init, Takes, Inv;
    if i > 0 {
      RemovedExact(states, steps, i - 1);
      TraceKeeps(states, steps, i - 1);
      RemovedStep(states[i - 1], steps[i - 1], states[i]);
      assert steps[..i][..i - 1] == steps[..i - 1];
    }
  }
}
