/** Linked lists seen as sequences: what the kernel's list primitives do to an order of elements. */
module Lists {

  ghost predicate NoDup<T>(s: seq<T>) {
    forall i, j :: 0 <= i < j < |s| ==> s[i] != s[j]
  }

  ghost predicate OccursAt<T>(part: seq<T>, whole: seq<T>, a: nat) {
    a + |part| <= |whole| && whole[a..a + |part|] == part
  }

  /** `part` occupies consecutive places of `whole`. */
  ghost predicate Infix<T>(part: seq<T>, whole: seq<T>) {
    exists a: nat :: OccursAt(part, whole, a)
  }

  lemma SplitsInto<T>(whole: seq<T>, before: seq<T>, part: seq<T>, after: seq<T>)
    requires whole == before + part + after
    ensures Infix(part, whole)
  {
    assert OccursAt(part, whole, |before|);
  }

  lemma Reassociate<T>(a: seq<T>, b: seq<T>, c: seq<T>)
    ensures a + (b + c) == (a + b) + c
  {
  }

  function IndexOf<T(==)>(s: seq<T>, x: T): (i: nat)
    requires x in s
    ensures i < |s| && s[i] == x
    ensures forall j :: 0 <= j < i ==> s[j] != x
  {
    if s[0] == x then 0 else 1 + IndexOf(s[1..], x)
  }

  /** list_del: the list without its first occurrence of `x`. */
  function Remove<T(==)>(s: seq<T>, x: T): (r: seq<T>)
    ensures x !in s ==> r == s
  {
    if x in s then var i := IndexOf(s, x); s[..i] + s[i + 1..] else s
  }

  /** list_add behind an element: `x` placed right after `at`. */
  function InsertAfter<T(==)>(s: seq<T>, at: T, x: T): (r: seq<T>)
    requires at in s
  {
    var i := IndexOf(s, at); s[..i + 1] + [x] + s[i + 1..]
  }

  lemma EmptyNoDup<T>()
    ensures NoDup<T>([])
  {
  }

  lemma SingletonNoDup<T>(x: T)
    ensures NoDup([x])
  {
  }

  lemma NoDupIndex<T>(s: seq<T>, i: nat)
    requires NoDup(s) && i < |s|
    ensures IndexOf(s, s[i]) == i
  {
  }

  lemma NoDupAppend<T>(a: seq<T>, b: seq<T>)
    requires NoDup(a) && NoDup(b)
    requires forall x :: x in a ==> x !in b
    ensures NoDup(a + b)
  {
    forall i, j | 0 <= i < j < |a + b| ensures (a + b)[i] != (a + b)[j] {
      if i < |a| <= j { assert a[i] in a && b[j - |a|] in b; }
    }
  }

  lemma RemoveContents<T>(s: seq<T>, x: T)
    requires NoDup(s)
    ensures NoDup(Remove(s, x))
    ensures forall y :: y in Remove(s, x) <==> y in s && y != x
  {
    if x in s {
      var i := IndexOf(s, x);
      var r := Remove(s, x);
      forall y ensures y in r <==> y in s && y != x {
        if y in s && y != x {
          var j := IndexOf(s, y);
          assert y == if j < i then r[j] else r[j - 1];
        }
      }
    }
  }

  lemma InsertContents<T>(s: seq<T>, at: T, x: T)
    requires NoDup(s) && at in s && x !in s
    ensures NoDup(InsertAfter(s, at, x))
    ensures forall y :: y in InsertAfter(s, at, x) <==> y in s || y == x
    ensures |InsertAfter(s, at, x)| == |s| + 1
  {
    var i := IndexOf(s, at);
    var r := InsertAfter(s, at, x);
    forall y ensures y in r <==> y in s || y == x {
      if y in s {
        var j := IndexOf(s, y);
        assert y == if j <= i then r[j] else r[j + 1];
      } else if y == x {
        assert r[i + 1] == x;
      }
    }
  }

  lemma IndexAppend<T>(a: seq<T>, b: seq<T>, x: T)
    requires x in a + b
    ensures IndexOf(a + b, x) == if x in a then IndexOf(a, x) else |a| + IndexOf(b, x)
  {
    var i := if x in a then IndexOf(a, x) else |a| + IndexOf(b, x);
    assert (a + b)[i] == x;
  }

  lemma CutAppend<T>(a: seq<T>, b: seq<T>, i: nat)
    requires i < |a| + |b|
    ensures (a + b)[..i] + (a + b)[i + 1..] ==
      if i < |a| then a[..i] + a[i + 1..] + b else a + (b[..i - |a|] + b[i - |a| + 1..])
  {
  }

  lemma RemoveAppend<T>(a: seq<T>, b: seq<T>, x: T)
    ensures Remove(a + b, x) == if x in a then Remove(a, x) + b else a + Remove(b, x)
  {
    hide IndexOf;
    if x in a + b {
      IndexAppend(a, b, x);
      CutAppend(a, b, IndexOf(a + b, x));
    }
  }

  lemma InsertAppend<T>(a: seq<T>, b: seq<T>, at: T, x: T)
    requires at in a + b
    ensures InsertAfter(a + b, at, x) == if at in a then InsertAfter(a, at, x) + b else a + InsertAfter(b, at, x)
  {
    var i := IndexOf(a + b, at);
    if at in a {
      assert i == IndexOf(a, at) by { assert (a + b)[IndexOf(a, at)] == at; }
    } else {
      assert i == |a| + IndexOf(b, at) by { assert (a + b)[|a| + IndexOf(b, at)] == at; }
    }
  }

  lemma RemoveFromSplit<T>(a: seq<T>, part: seq<T>, c: seq<T>, x: T)
    requires x in a ==> x !in part
    ensures Infix(Remove(part, x), Remove(a + (part + c), x))
  {
    hide Remove, Infix;
    var whole := a + (part + c);
    RemoveAppend(a, part + c, x);
    RemoveAppend(part, c, x);
    if x in a {
      SplitsInto(Remove(whole, x), Remove(a, x), part, c);
    } else if x in part {
      SplitsInto(Remove(whole, x), a, Remove(part, x), c);
    } else {
      SplitsInto(Remove(whole, x), a, part, Remove(c, x));
    }
  }

  /** Deleting an element keeps a run that does not hold it, and shortens a run that does. */
  lemma InfixRemove<T>(part: seq<T>, whole: seq<T>, x: T)
    requires NoDup(whole) && Infix(part, whole)
    ensures Infix(Remove(part, x), Remove(whole, x))
  {
    hide Remove;
    var k: nat :| OccursAt(part, whole, k);
    assert whole == whole[..k] + (part + whole[k + |part|..]);
    if x in whole[..k] { DisjointHalves(whole[..k], part + whole[k + |part|..], x); }
    RemoveFromSplit(whole[..k], part, whole[k + |part|..], x);
  }

  lemma DisjointHalves<T>(a: seq<T>, b: seq<T>, x: T)
    requires NoDup(a + b) && x in a
    ensures x !in b
  {
    var i := IndexOf(a, x);
    forall j | 0 <= j < |b| ensures b[j] != x {
      assert (a + b)[i] == x && (a + b)[|a| + j] == b[j];
    }
  }

  lemma InsertIntoSplit<T>(a: seq<T>, part: seq<T>, c: seq<T>, at: T, x: T)
    requires at in a + (part + c) && (at in a ==> at !in part)
    ensures at in part ==> Infix(InsertAfter(part, at, x), InsertAfter(a + (part + c), at, x))
    ensures at !in part ==> Infix(part, InsertAfter(a + (part + c), at, x))
  {
    hide InsertAfter, Infix;
    var w := InsertAfter(a + (part + c), at, x);
    InsertAppend(a, part + c, at, x);
    if at in a {
      SplitsInto(w, InsertAfter(a, at, x), part, c);
    } else {
      InsertAppend(part, c, at, x);
      if at in part {
        SplitsInto(w, a, InsertAfter(part, at, x), c);
      } else {
        SplitsInto(w, a, part, InsertAfter(c, at, x));
      }
    }
  }

  /** Inserting behind `at` extends the run that holds it and keeps a run that does not. */
  lemma InfixInsert<T>(part: seq<T>, whole: seq<T>, at: T, x: T)
    requires NoDup(whole) && at in whole && Infix(part, whole)
    ensures at in part ==> Infix(InsertAfter(part, at, x), InsertAfter(whole, at, x))
    ensures at !in part ==> Infix(part, InsertAfter(whole, at, x))
  {
    hide InsertAfter;
    var k: nat :| OccursAt(part, whole, k);
    var a, c := whole[..k], whole[k + |part|..];
    assert whole == a + (part + c);
    if at in a { DisjointHalves(a, part + c, at); }
    InsertIntoSplit(a, part, c, at, x);
  }

  lemma InfixWiden<T>(part: seq<T>, whole: seq<T>, before: seq<T>, after: seq<T>)
    requires Infix(part, whole)
    ensures Infix(part, before + whole + after)
  {
    var k: nat :| OccursAt(part, whole, k);
    var a, c := whole[..k], whole[k + |part|..];
    SplitsInto(before + whole + after, before + a, part, c + after);
  }
}
