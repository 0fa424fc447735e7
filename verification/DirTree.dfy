/** Parent pointers as a map: climbing, ancestry, and what swapping two parents does to a forest. */
module DirTree {

  /** No parent leads out of the map. */
  ghost predicate Inside<T>(up: map<T, T>) {
    forall d {:trigger up[d]} :: d in up ==> up[d] in up
  }

  /** The k-th parent of `d`. */
  ghost function Climb<T>(up: map<T, T>, d: T, k: nat): (a: T)
    requires Inside(up) && d in up
    ensures a in up
  {
    if k == 0 then d else Climb(up, up[d], k - 1)
  }

  /** `a` is `d` or above it. */
  ghost predicate Above<T>(up: map<T, T>, a: T, d: T)
    requires Inside(up) && d in up
  {
    exists k: nat :: Climb(up, d, k) == a
  }

  ghost predicate Root<T>(up: map<T, T>, r: T) {
    r in up && up[r] == r
  }

  /** Climbing from `d` ends at a root. */
  ghost predicate Ends<T>(up: map<T, T>, d: T)
    requires Inside(up) && d in up
  {
    exists k: nat :: Root(up, Climb(up, d, k))
  }

  /** No cycles but the self-parents of roots. */
  ghost predicate Forest<T>(up: map<T, T>) {
    Inside(up) && forall d {:trigger Ends(up, d)} :: d in up ==> Ends(up, d)
  }

  lemma {:induction false} ClimbOn<T>(up: map<T, T>, d: T, i: nat, j: nat)
    requires Inside(up) && d in up
    ensures Climb(up, Climb(up, d, i), j) == Climb(up, d, i + j)
    decreases i
  {
    if i > 0 { ClimbOn(up, up[d], i - 1, j); }
  }

  lemma {:induction false} RootStays<T>(up: map<T, T>, r: T, k: nat)
    requires Inside(up) && Root(up, r)
    ensures Climb(up, r, k) == r
  {
    if k > 0 { RootStays(up, r, k - 1); }
  }

  lemma AboveSelf<T>(up: map<T, T>, d: T)
    requires Inside(up) && d in up
    ensures Above(up, d, d) && Above(up, up[d], d)
  {
    assert Climb(up, d, 0) == d;
    assert Climb(up, d, 1) == up[d];
  }

  lemma AboveTrans<T>(up: map<T, T>, a: T, b: T, d: T)
    requires Inside(up) && b in up && d in up && Above(up, a, b) && Above(up, b, d)
    ensures Above(up, a, d)
  {
    var i: nat :| Climb(up, d, i) == b;
    var j: nat :| Climb(up, b, j) == a;
    ClimbOn(up, d, i, j);
  }

  /** Being above means being there, or above the parent. */
  lemma AboveStep<T>(up: map<T, T>, a: T, d: T)
    requires Inside(up) && d in up
    ensures Above(up, a, d) <==> a == d || Above(up, a, up[d])
  {
    if Above(up, a, d) && a != d {
      var k: nat :| Climb(up, d, k) == a;
      assert Climb(up, up[d], k - 1) == a;
    }
    AboveSelf(up, d);
    if Above(up, a, up[d]) { AboveTrans(up, a, up[d], d); }
  }

  /** Only a root is above a root. */
  lemma AboveRoot<T>(up: map<T, T>, a: T, r: T)
    requires Inside(up) && Root(up, r)
    ensures Above(up, a, r) <==> a == r
  {
    hide Climb;
    AboveSelf(up, r);
    if Above(up, a, r) {
      var k: nat :| Climb(up, r, k) == a;
      RootStays(up, r, k);
    }
  }

  lemma {:induction false} Around<T>(up: map<T, T>, d: T, n: nat, times: nat)
    requires Inside(up) && d in up && Climb(up, d, n) == d
    ensures Climb(up, d, times * n) == d
    decreases times
  {
    if times > 0 {
      Around(up, d, n, times - 1);
      ClimbOn(up, d, (times - 1) * n, n);
      assert (times - 1) * n + n == times * n;
    }
  }

  /** One step up, and the map is not left. */
  lemma StepUp<T>(up: map<T, T>, d: T, k: nat)
    requires Inside(up) && d in up
    ensures up[d] in up && Climb(up, d, 0) == d && Climb(up, d, 1) == up[d]
    ensures k > 0 ==> Climb(up, d, k) == Climb(up, up[d], k - 1)
  {
    assert Climb(up, up[d], 0) == up[d];
  }

  lemma EndsSomewhere<T>(up: map<T, T>, d: T) returns (k: nat)
    requires Forest(up) && d in up
    ensures Inside(up) && Root(up, Climb(up, d, k))
  {
    hide Climb, Root;
    assert Ends(up, d);
    k :| Root(up, Climb(up, d, k));
  }

  /** Only a root comes back to itself. */
  lemma NoWayBack<T>(up: map<T, T>, d: T, n: nat)
    requires Forest(up) && d in up && n > 0 && Climb(up, d, n) == d
    ensures Root(up, d)
  {
    hide *;
    var k := EndsSomewhere(up, d);
    Around(up, d, n, k);
    Larger(k, n);
    ClimbOn(up, d, k, k * n - k);
    RootStays(up, Climb(up, d, k), k * n - k);
  }

  lemma Larger(k: nat, n: nat)
    requires n > 0
    ensures k * n >= k
  {
  }

  lemma AboveBoth<T>(up: map<T, T>, a: T, b: T)
    requires Forest(up) && a in up && b in up && Above(up, a, b) && Above(up, b, a)
    ensures a == b
  {
    hide Climb, Ends, Root;
    if a != b {
      var i: nat :| Climb(up, b, i) == a;
      var j: nat :| Climb(up, a, j) == b;
      ClimbOn(up, b, i, j);
      StepUp(up, b, 0);
      NoWayBack(up, b, i + j);
      RootStays(up, b, i);
      assert false;
    }
  }

  /** Nothing but a root is above its own parent. */
  lemma NotAboveParent<T>(up: map<T, T>, d: T)
    requires Forest(up) && d in up && up[d] != d
    ensures up[d] in up && !Above(up, d, up[d])
  {
    hide Climb, Ends, Root, Above;
    if Above(up, d, up[d]) {
      AboveSelf(up, d);
      AboveBoth(up, d, up[d]);
      assert false;
    }
  }

  // ---------------------------------------------------------------- changing parents

  /** The parents of everything but `s` and `t` are the same. */
  ghost predicate Agree<T>(up: map<T, T>, up': map<T, T>, s: T, t: T) {
    && up.Keys == up'.Keys && s in up && t in up
    && (forall x {:trigger up'[x]} :: x in up && x != s && x != t ==> up'[x] == up[x])
    && Inside(up) && Inside(up')
  }

  lemma AgreeAt<T>(up: map<T, T>, up': map<T, T>, s: T, t: T, x: T)
    requires Agree(up, up', s, t) && x in up
    ensures Inside(up) && Inside(up') && x in up' && (x != s && x != t ==> up'[x] == up[x])
  {
    hide Inside;
  }

  /** `s` and `t` change places; everything else keeps its parent. */
  ghost function Swapped<T>(up: map<T, T>, s: T, t: T): map<T, T>
    requires s in up && t in up
  {
    up[s := up[t]][t := up[s]]
  }

  /** The first `k` stops of the climb from `d` are neither `s` nor `t`. */
  ghost predicate Misses<T>(up: map<T, T>, d: T, k: nat, s: T, t: T)
    requires Inside(up) && d in up
  {
    forall i: nat :: i < k ==> Climb(up, d, i) != s && Climb(up, d, i) != t
  }

  lemma MissesOn<T>(up: map<T, T>, d: T, k: nat, s: T, t: T)
    requires Inside(up) && d in up && k > 0 && Misses(up, d, k, s, t)
    ensures d != s && d != t && up[d] in up && Misses(up, up[d], k - 1, s, t)
  {
    hide Climb;
    StepUp(up, d, 0);
    assert Climb(up, d, 0) == d;
    forall i: nat | i < k - 1 ensures Climb(up, up[d], i) != s && Climb(up, up[d], i) != t {
      StepUp(up, d, i + 1);
      assert Climb(up, d, i + 1) != s && Climb(up, d, i + 1) != t;
    }
  }

  /** A climb that meets neither `s` nor `t` is not changed. */
  lemma {:induction false} SameClimb<T>(up: map<T, T>, up': map<T, T>, d: T, k: nat, s: T, t: T)
    requires Agree(up, up', s, t) && d in up && Inside(up) && Inside(up') && d in up' && Misses(up, d, k, s, t)
    ensures Climb(up', d, k) == Climb(up, d, k)
    decreases k
  {
    hide *;
    StepUp(up, d, k);
    StepUp(up', d, k);
    if k > 0 {
      MissesOn(up, d, k, s, t);
      AgreeAt(up, up', s, t, d);
      SameClimb(up, up', up[d], k - 1, s, t);
    }
  }

  lemma ClearWay<T>(up: map<T, T>, up': map<T, T>, d: T, s: T, t: T)
    requires Agree(up, up', s, t) && d in up && Forest(up) && !Above(up, s, d) && !Above(up, t, d)
    ensures Inside(up') && d in up' && Ends(up', d)
  {
    hide Climb, Inside, Root, Forest;
    var k := EndsSomewhere(up, d);
    AgreeAt(up, up', s, t, d);
    assert Misses(up, d, k, s, t);
    SameClimb(up, up', d, k, s, t);
    var r := Climb(up, d, k);
    StepUp(up, d, k);
    assert r != s && r != t;
    RootAgrees(up, up', s, t, r);
    assert Root(up', Climb(up', d, k));
  }

  lemma RootAgrees<T>(up: map<T, T>, up': map<T, T>, s: T, t: T, r: T)
    requires Agree(up, up', s, t) && Root(up, r) && r != s && r != t
    ensures Root(up', r)
  {
    hide Inside;
  }

  lemma EndsBelow<T>(up: map<T, T>, d: T)
    requires Inside(up) && d in up && up[d] in up && Ends(up, up[d])
    ensures Ends(up, d)
  {
    hide Climb, Inside, Root;
    var k: nat :| Root(up, Climb(up, up[d], k));
    StepUp(up, d, k + 1);
    assert Root(up, Climb(up, d, k + 1));
  }

  lemma EndsHere<T>(up: map<T, T>, r: T)
    requires Inside(up) && Root(up, r)
    ensures r in up && Ends(up, r)
  {
    assert Climb(up, r, 0) == r;
  }

  lemma {:induction false} EndsVia<T>(up: map<T, T>, up': map<T, T>, d: T, k: nat, s: T, t: T)
    requires Agree(up, up', s, t) && d in up && Inside(up) && Inside(up') && s in up' && t in up' && d in up'
    requires Ends(up', s) && Ends(up', t) && Root(up, Climb(up, d, k))
    ensures Ends(up', d)
    decreases k
  {
    hide *;
    if d != s && d != t {
      StepUp(up, d, k);
      if k == 0 {
        RootAgrees(up, up', s, t, d);
        EndsHere(up', d);
      } else {
        StepUp(up', d, 0);
        AgreeAt(up, up', s, t, d);
        EndsVia(up, up', up[d], k - 1, s, t);
        EndsBelow(up', d);
      }
    }
  }

  lemma SwapAgrees<T>(up: map<T, T>, s: T, t: T)
    requires Inside(up) && s in up && t in up && s != t
    ensures var up' := Swapped(up, s, t);
      Agree(up, up', s, t) && up'[s] == up[t] && up'[t] == up[s] && up[s] in up && up[t] in up
  {
  }

  /** No roots but those of `up`. */
  ghost predicate NoNewRoots<T>(up: map<T, T>, up': map<T, T>) {
    forall r {:trigger up'[r]} :: r in up' && up'[r] == r ==> Root(up, r)
  }

  /** The swap keeps the forest, and cuts nothing off, if and only if neither of the two goes below itself. */
  lemma SwapKeepsForest<T>(up: map<T, T>, s: T, t: T)
    requires Forest(up) && s in up && t in up && s != t && up[s] != s && up[t] != t
    ensures up[s] in up && up[t] in up
    ensures Forest(Swapped(up, s, t)) && NoNewRoots(up, Swapped(up, s, t)) <==> !Above(up, s, up[t]) && !Above(up, t, up[s])
  {
    hide Climb, Inside, Root, Ends, Above, Swapped, Agree, NoNewRoots;
    var up' := Swapped(up, s, t);
    SwapAgrees(up, s, t);
    NotAboveParent(up, s);
    NotAboveParent(up, t);
    if !Above(up, s, up[t]) && !Above(up, t, up[s]) {
      SwapEnds(up, s, t);
    } else if Above(up, s, up[t]) {
      SwapClosesCycle(up, s, t);
    } else {
      SwapEitherWay(up, s, t);
      SwapClosesCycle(up, t, s);
    }
  }

  lemma SwapEitherWay<T>(up: map<T, T>, s: T, t: T)
    requires s in up && t in up
    ensures Swapped(up, t, s) == Swapped(up, s, t)
  {
  }

  lemma SwapEnds<T>(up: map<T, T>, s: T, t: T)
    requires Forest(up) && s in up && t in up && s != t && up[s] != s && up[t] != t && up[s] in up && up[t] in up
    requires !Above(up, s, up[t]) && !Above(up, t, up[s])
    ensures Forest(Swapped(up, s, t)) && NoNewRoots(up, Swapped(up, s, t))
  {
    hide Climb, Inside, Ends, Above, Swapped;
    var up' := Swapped(up, s, t);
    SwapAgrees(up, s, t);
    AboveSelf(up, s);
    AboveSelf(up, t);
    NotAboveParent(up, s);
    NotAboveParent(up, t);
    ClearWay(up, up', up[t], s, t);
    ClearWay(up, up', up[s], s, t);
    EndsBelow(up', s);
    EndsBelow(up', t);
    forall d | d in up' ensures Ends(up', d) {
      var k := EndsSomewhere(up, d);
      EndsVia(up, up', d, k, s, t);
    }
  }

  lemma {:induction false} FirstVisit<T>(up: map<T, T>, d: T, a: T, k: nat) returns (n: nat)
    requires Inside(up) && d in up && Climb(up, d, k) == a
    ensures n <= k && Climb(up, d, n) == a && forall i: nat :: i < n ==> Climb(up, d, i) != a
    decreases k
  {
    if i: nat :| i < k && Climb(up, d, i) == a {
      n := FirstVisit(up, d, a, i);
    } else {
      n := k;
    }
  }

  lemma SwapClosesCycle<T>(up: map<T, T>, s: T, t: T)
    requires Forest(up) && s in up && t in up && s != t && up[s] != s && up[t] != t && up[t] in up
    requires Above(up, s, up[t]) && !Above(up, t, up[t])
    ensures !(Forest(Swapped(up, s, t)) && NoNewRoots(up, Swapped(up, s, t)))
  {
    hide Climb, Inside, Ends, Swapped, Agree;
    var up' := Swapped(up, s, t);
    SwapAgrees(up, s, t);
    AgreeAt(up, up', s, t, s);
    var k: nat :| Climb(up, up[t], k) == s;
    var n := FirstVisit(up, up[t], s, k);
    SameClimb(up, up', up[t], n, s, t);
    StepUp(up', s, n + 1);
    if Forest(up') {
      NoWayBack(up', s, n + 1);
    }
  }

  /** The tree of the root `s` goes where `t` was, and `t` stands alone. */
  ghost function Spliced<T>(up: map<T, T>, s: T, t: T): map<T, T>
    requires s in up && t in up
  {
    up[s := up[t]][t := t]
  }

  lemma SpliceAgrees<T>(up: map<T, T>, s: T, t: T)
    requires Inside(up) && s in up && t in up && s != t
    ensures var up' := Spliced(up, s, t); Agree(up, up', s, t) && up'[s] == up[t] && Root(up', t) && up[t] in up
  {
  }

  /** Splicing keeps the forest and connects the root if and only if it does not go below itself. */
  lemma SpliceKeepsForest<T>(up: map<T, T>, s: T, t: T)
    requires Forest(up) && Root(up, s) && t in up && s != t && up[t] != t
    ensures up[t] in up && (Forest(Spliced(up, s, t)) && Spliced(up, s, t)[s] != s <==> !Above(up, s, up[t]))
  {
    hide Climb, Inside, Ends, Spliced, Agree, Above;
    var up' := Spliced(up, s, t);
    SpliceAgrees(up, s, t);
    AgreeAt(up, up', s, t, s);
    NotAboveParent(up, t);
    AboveSelf(up, up[t]);
    if !Above(up, s, up[t]) {
      ClearWay(up, up', up[t], s, t);
      EndsBelow(up', s);
      SpliceEnds(up, s, t);
    } else if up[t] != s {
      SpliceClosesCycle(up, s, t);
    }
  }

  lemma SpliceEnds<T>(up: map<T, T>, s: T, t: T)
    requires Forest(up) && s in up && t in up && s != t
    requires var up' := Spliced(up, s, t); Inside(up') && s in up' && Ends(up', s)
    ensures Forest(Spliced(up, s, t))
  {
    hide Climb, Inside, Ends, Spliced;
    var up' := Spliced(up, s, t);
    SpliceAgrees(up, s, t);
    EndsHere(up', t);
    forall d | d in up' ensures Ends(up', d) {
      var k := EndsSomewhere(up, d);
      EndsVia(up, up', d, k, s, t);
    }
  }

  lemma SpliceClosesCycle<T>(up: map<T, T>, s: T, t: T)
    requires Forest(up) && s in up && t in up && s != t && up[t] in up && up[t] != s && Above(up, s, up[t]) && !Above(up, t, up[t])
    ensures !Forest(Spliced(up, s, t))
  {
    hide Climb, Inside, Ends, Spliced, Agree;
    var up' := Spliced(up, s, t);
    SpliceAgrees(up, s, t);
    AgreeAt(up, up', s, t, s);
    var k: nat :| Climb(up, up[t], k) == s;
    var n := FirstVisit(up, up[t], s, k);
    SameClimb(up, up', up[t], n, s, t);
    StepUp(up', s, n + 1);
    if Forest(up') {
      NoWayBack(up', s, n + 1);
    }
  }

  /** Giving `s` another parent keeps the forest unless that parent is below `s`. */
  lemma MoveKeepsForest<T>(up: map<T, T>, s: T, p: T)
    requires Forest(up) && s in up && p in up && !Above(up, s, p)
    ensures Forest(up[s := p])
  {
    hide Climb, Inside, Ends, Above;
    var up' := up[s := p];
    MoveAgrees(up, s, p);
    ClearWay(up, up', p, s, s);
    EndsBelow(up', s);
    forall d | d in up' ensures Ends(up', d) {
      var k := EndsSomewhere(up, d);
      EndsVia(up, up', d, k, s, s);
    }
  }

  lemma MoveAgrees<T>(up: map<T, T>, s: T, p: T)
    requires Inside(up) && s in up && p in up
    ensures Agree(up, up[s := p], s, s) && Inside(up[s := p])
  {
  }

  /** A new leaf keeps the forest and changes nobody's ancestors. */
  lemma LeafKeepsForest<T>(up: map<T, T>, c: T, p: T)
    requires Forest(up) && c !in up && p in up
    ensures Forest(up[c := p])
    ensures forall a, d {:trigger Above(up[c := p], a, d)} {:trigger Above(up, a, d)} :: a in up && d in up ==>
      (Above(up[c := p], a, d) <==> Above(up, a, d))
  {
    hide Climb, Ends, Above;
    var up' := up[c := p];
    assert Inside(up') by { assert forall d {:trigger up'[d]} :: d in up' ==> up'[d] in up'; }
    forall d | d in up ensures Ends(up', d) {
      var k := EndsSomewhere(up, d);
      LeafClimb(up, c, p, d, k);
      EndsAt(up', d, k);
    }
    EndsBelow(up', c);
    forall a, d | a in up && d in up ensures Above(up', a, d) <==> Above(up, a, d) {
      LeafAbove(up, c, p, a, d);
    }
  }

  lemma EndsAt<T>(up: map<T, T>, d: T, k: nat)
    requires Inside(up) && d in up && Root(up, Climb(up, d, k))
    ensures Ends(up, d)
  {
    hide Climb;
  }

  lemma {:induction false} LeafClimb<T>(up: map<T, T>, c: T, p: T, d: T, k: nat)
    requires Inside(up) && c !in up && p in up && d in up && Inside(up[c := p])
    ensures Climb(up[c := p], d, k) == Climb(up, d, k)
  {
    if k > 0 { LeafClimb(up, c, p, up[d], k - 1); }
  }

  lemma LeafAbove<T>(up: map<T, T>, c: T, p: T, a: T, d: T)
    requires Inside(up) && c !in up && p in up && d in up && Inside(up[c := p])
    ensures Above(up[c := p], a, d) <==> Above(up, a, d)
  {
    hide Climb, Inside;
    var up' := up[c := p];
    if Above(up, a, d) {
      var k: nat :| Climb(up, d, k) == a;
      LeafClimb(up, c, p, d, k);
    }
    if Above(up', a, d) {
      var k: nat :| Climb(up', d, k) == a;
      LeafClimb(up, c, p, d, k);
    }
  }

  /** The child of `a` on the way up from `d` is the only one above `d`. */
  lemma OnlyChildAbove<T>(up: map<T, T>, a: T, c: T, c': T, d: T)
    requires Forest(up) && a in up && c in up && c' in up && d in up && up[c] == a != c && up[c'] == a != c'
    requires Above(up, c, d) && Above(up, c', d)
    ensures c == c'
  {
    hide Climb, Ends, Root;
    var i: nat :| Climb(up, d, i) == c;
    var j: nat :| Climb(up, d, j) == c';
    var lo, hi := if i <= j then i else j, if i <= j then j else i;
    var x, y := if i <= j then c else c', if i <= j then c' else c;
    ClimbOn(up, d, lo, hi - lo);
    if lo < hi {
      StepUp(up, x, hi - lo);
      assert Climb(up, a, hi - lo - 1) == y;
      assert Above(up, y, a);
      NotAboveParent(up, y);
      assert false;
    } else {
      StepUp(up, x, 0);
    }
  }

  // ---------------------------------------------------------------- depth

  ghost function RootBy<T>(up: map<T, T>, d: T, k: nat): (n: nat)
    requires Inside(up) && d in up && Root(up, Climb(up, d, k))
    ensures n <= k && Root(up, Climb(up, d, n)) && forall i: nat :: i < n ==> !Root(up, Climb(up, d, i))
  {
    if exists i: nat :: i < k && Root(up, Climb(up, d, i)) then
      var i: nat :| i < k && Root(up, Climb(up, d, i));
      RootBy(up, d, i)
    else k
  }

  /** The number of steps to the root. */
  ghost function Depth<T>(up: map<T, T>, d: T): (n: nat)
    requires Forest(up) && d in up
    ensures Root(up, Climb(up, d, n)) && forall i: nat :: i < n ==> !Root(up, Climb(up, d, i))
  {
    assert Ends(up, d);
    var k: nat :| Root(up, Climb(up, d, k));
    RootBy(up, d, k)
  }

  lemma DepthStep<T>(up: map<T, T>, d: T)
    requires Forest(up) && d in up && up[d] != d
    ensures up[d] in up && Depth(up, d) == Depth(up, up[d]) + 1
  {
    hide Climb;
    var n, m := Depth(up, d), Depth(up, up[d]);
    StepUp(up, d, 0);
    StepUp(up, d, n);
    StepUp(up, d, m + 1);
  }
}
