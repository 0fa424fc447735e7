/** Printing the path of a dentry backwards into a buffer, and resolving what was printed. */
module PathPrint {
  import opened Lists
  import opened DirTree
  import opened PathSpec
  import opened PathWalk

  /** Dentries with their parents and names. */
  datatype Tree = Tree(up: map<int, int>, name: map<int, string>)

  ghost predicate LegalName(s: string) {
    s != "" && s != "." && s != ".." && forall i :: 0 <= i < |s| ==> s[i] != '/' && s[i] != '\0'
  }

  ghost predicate ValidTree(t: Tree) {
    Forest(t.up) && t.up.Keys == t.name.Keys && forall d :: d in t.up && t.up[d] != d ==> LegalName(t.name[d])
  }

  /** A slash and a name for every step from the root. */
  ghost function Names(t: Tree, d: int): (r: string)
    requires ValidTree(t) && d in t.up
    decreases Depth(t.up, d)
  {
    if t.up[d] == d then ""
    else
      DepthStep(t.up, d);
      Names(t, t.up[d]) + ("/" + t.name[d])
  }

  ghost function Printed(t: Tree, d: int): (r: string)
    requires ValidTree(t) && d in t.up
    ensures |r| >= 1
  {
    if t.up[d] == d then "/" else Names(t, d)
  }

  /** prepend_name: a slash and the name go in front of `end`, if there is room */
  method PrependName(buf: array<char>, end: nat, len: int, name: string) returns (ok: bool, end': nat, len': int)
    requires len <= end <= buf.Length && forall i :: 0 <= i < |name| ==> name[i] != '\0'
    modifies buf
    ensures len' == len - (|name| + 1) && (ok <==> len' >= 0)
    ensures ok ==> end' == end - (|name| + 1) && buf[end'..end] == "/" + name
    ensures forall i :: end <= i < buf.Length ==> buf[i] == old(buf[i])
    ensures !ok ==> end' == end
  {
    len', end' := len - (|name| + 1), end;
    ok := len' >= 0;
    if !ok { return; }
    end' := end - (|name| + 1);
    var p := end';
    buf[p] := '/';
    p := p + 1;
    var i := 0;
    while i < |name|
      invariant 0 <= i <= |name| && p == end' + 1 + i
      invariant buf[end'] == '/' && forall j :: 0 <= j < i ==> buf[end' + 1 + j] == name[j]
      invariant forall j :: end <= j < buf.Length ==> buf[j] == old(buf[j])
    {
      buf[p] := name[i];
      p := p + 1;
      i := i + 1;
    }
    assert buf[end'..end] == "/" + name;
  }

  lemma NamesStep(t: Tree, d: int)
    requires ValidTree(t) && d in t.up
    ensures t.up[d] in t.up && d in t.name
    ensures t.up[d] == d ==> Names(t, d) == ""
    ensures t.up[d] != d ==> LegalName(t.name[d]) && Depth(t.up, d) == Depth(t.up, t.up[d]) + 1
    ensures t.up[d] != d ==> Names(t, d) == Names(t, t.up[d]) + ("/" + t.name[d])
  {
    if t.up[d] != d { DepthStep(t.up, d); }
  }

  lemma NextText(t: Tree, d: int, dentry: int, text: string)
    requires ValidTree(t) && d in t.up && dentry in t.up && t.up[dentry] != dentry && Names(t, d) == Names(t, dentry) + text
    ensures t.up[dentry] in t.up && dentry in t.name && Names(t, d) == Names(t, t.up[dentry]) + ("/" + t.name[dentry] + text)
  {
    hide Names;
    NamesStep(t, dentry);
    Reassociate(Names(t, t.up[dentry]), "/" + t.name[dentry], text);
  }

  lemma Joint(buf: array<char>, i: nat, j: nat, k: nat)
    requires i <= j <= k <= buf.Length
    ensures buf[i..k] == buf[i..j] + buf[j..k]
  {
  }

  /** __dentry_path: prints the path, or fails exactly when it and its NUL do not fit */
  method DentryPath(t: Tree, d: int, buf: array<char>) returns (r: int)
    requires ValidTree(t) && d in t.up
    modifies buf
    ensures r == -1 <==> buf.Length < |Printed(t, d)| + 1
    ensures r != -1 ==> 0 <= r < buf.Length && buf[r..buf.Length - 1] == Printed(t, d) && buf[buf.Length - 1] == '\0'
  {
    hide Names, Forest, Depth, LegalName;
    NamesStep(t, d);
    if t.up[d] != d { NamesAtLeast(t, d); }
    if buf.Length < 2 { return -1; }
    var dentry, end: nat, len := d, buf.Length - 1, buf.Length - 1;
    buf[end] := '\0';
    r := end - 1;
    buf[r] := '/';
    ghost var text: string := [];
    while t.up[dentry] != dentry
      invariant dentry in t.up && dentry in t.name && len == end < buf.Length && buf[buf.Length - 1] == '\0'
      invariant Names(t, d) == Names(t, dentry) + text && buf[end..buf.Length - 1] == text
      invariant if dentry == d then r == buf.Length - 2 && end == r + 1 && buf[r] == '/' else r == end && t.up[d] != d
      decreases Depth(t.up, dentry)
    {
      NextText(t, d, dentry, text);
      NamesStep(t, dentry);
      NamesStep(t, t.up[dentry]);
      Legal(t.name[dentry]);
      var ok, end', len' := PrependName(buf, end, len, t.name[dentry]);
      if !ok { return -1; }
      assert buf[end..buf.Length - 1] == text;
      Joint(buf, end', end, buf.Length - 1);
      text := "/" + t.name[dentry] + text;
      end, len := end', len';
      r := end;
      dentry := t.up[dentry];
    }
    NamesStep(t, dentry);
  }

  lemma Legal(s: string)
    requires LegalName(s)
    ensures s != "" && forall i :: 0 <= i < |s| ==> s[i] != '\0'
  {
  }

  lemma NamesAtLeast(t: Tree, d: int)
    requires ValidTree(t) && d in t.up && t.up[d] != d
    ensures |Names(t, d)| >= 2
  {
    NamesStep(t, d);
  }

  // ---------------------------------------------------------------- resolving what was printed

  lemma {:induction false} SkipInFront(a: string, b: string)
    ensures SkipSlashes(a + ("/" + b)) == if SkipSlashes(a) == "" then SkipSlashes(b) else SkipSlashes(a) + ("/" + b)
    decreases |a|
  {
    var s := a + ("/" + b);
    if a == "" {
      assert s[1..] == b;
    } else if a[0] == '/' {
      assert s[1..] == a[1..] + ("/" + b);
      SkipInFront(a[1..], b);
    }
  }

  lemma {:induction false} LengthInFront(a: string, b: string)
    ensures NameLength(a + ("/" + b)) == NameLength(a)
  {
    var s := a + ("/" + b);
    if a != "" && a[0] != '/' {
      assert s[1..] == a[1..] + ("/" + b);
      LengthInFront(a[1..], b);
    }
  }

  lemma SplitOnce(s: string)
    ensures var t := SkipSlashes(s); Split(s) == if t == "" then [] else [t[..NameLength(t)]] + Split(t[NameLength(t)..])
  {
  }

  /** A slash between two paths puts their components one after the other. */
  lemma {:induction false} SplitJoin(a: string, b: string)
    ensures Split(a + ("/" + b)) == Split(a) + Split(b)
    decreases |a|
  {
    hide Split, SkipSlashes, NameLength;
    var s, t := a + ("/" + b), SkipSlashes(a);
    SkipInFront(a, b);
    SplitOnce(a);
    SplitOnce(s);
    if t == "" {
      SplitOnce(b);
    } else {
      LengthInFront(t, b);
      var k, u := NameLength(t), t + ("/" + b);
      assert u[..k] == t[..k] && u[k..] == t[k..] + ("/" + b);
      SplitJoin(t[k..], b);
      Reassociate([t[..k]], Split(t[k..]), Split(b));
    }
  }

  /** Whether a slash follows the last component of such a path. */
  lemma SlashJoin(a: string, b: string)
    ensures SlashAfter(a + ("/" + b)) <==> if Split(b) == [] then Split(a) != [] else SlashAfter(b)
  {
    var s := a + ("/" + b);
    SplitJoin(a, b);
    SlashAfterIsLast(s);
    SlashAfterIsLast(b);
    if b == "" {
      assert s[|s| - 1] == '/';
    } else {
      assert s[|s| - 1] == b[|b| - 1];
      if Split(b) == [] { OnlySlashes(b); }
    }
  }

  lemma {:induction false} WholeName(n: string)
    requires forall i :: 0 <= i < |n| ==> n[i] != '/'
    ensures NameLength(n) == |n|
  {
    if n != "" { WholeName(n[1..]); }
  }

  lemma SplitName(n: string)
    requires n != "" && forall i :: 0 <= i < |n| ==> n[i] != '/'
    ensures Split(n) == [n] && !SlashAfter(n)
  {
    WholeName(n);
    assert SkipSlashes(n) == n;
    NoNames();
    assert n[..|n|] == n && n[|n|..] == "";
  }

  ghost function NameList(t: Tree, d: int): seq<string>
    requires ValidTree(t) && d in t.up
    decreases Depth(t.up, d)
  {
    if t.up[d] == d then []
    else
      DepthStep(t.up, d);
      NameList(t, t.up[d]) + [t.name[d]]
  }

  lemma {:induction false} SplitNames(t: Tree, d: int)
    requires ValidTree(t) && d in t.up
    ensures Split(Names(t, d)) == NameList(t, d) && (t.up[d] != d ==> !SlashAfter(Names(t, d)) && Absolute(Names(t, d)))
    decreases Depth(t.up, d)
  {
    hide Forest, Depth, Split, SlashAfter, LegalName;
    NamesStep(t, d);
    if t.up[d] == d {
      assert Split("") == [] by { NoNames(); }
    } else {
      SplitNames(t, t.up[d]);
      SplitJoin(Names(t, t.up[d]), t.name[d]);
      SlashJoin(Names(t, t.up[d]), t.name[d]);
      LegalSplit(t.name[d]);
      NamesStep(t, t.up[d]);
    }
  }

  lemma LegalSplit(n: string)
    requires LegalName(n)
    ensures Split(n) == [n] && !SlashAfter(n)
  {
    SplitName(n);
  }

  lemma NoNames()
    ensures Split("") == [] && Split("/") == []
  {
    assert SkipSlashes("/") == SkipSlashes("");
  }

  /** The directories on the way to `d` can be searched, and hold what the tree says. */
  ghost predicate OnWay(fs: Fs, t: Tree, d: int)
    requires ValidTree(t) && d in t.up
    decreases Depth(t.up, d)
  {
    if t.up[d] == d then d == fs.root
    else
      DepthStep(t.up, d);
      var p := t.up[d];
      p in fs.dirs && p in fs.searchable && p !in fs.links && (p, t.name[d]) in fs.entries &&
        fs.entries[(p, t.name[d])] == d && OnWay(fs, t, p)
  }

  /** Going down to the directory `d` name by name takes no links. */
  lemma {:induction false} WalkDown(fs: Fs, t: Tree, d: int, rest: seq<string>, slash: bool, follow: bool, directory: bool, n: nat)
    requires ValidTree(t) && d in t.up && OnWay(fs, t, d) && d in fs.dirs && d !in fs.links && rest != [] && n <= MAXSYMLINKS
    ensures Resolve(fs, fs.root, NameList(t, d) + rest, slash, follow, directory, n)
      == Resolve(fs, d, rest, slash, follow, directory, n)
    decreases Depth(t.up, d)
  {
    hide Forest, Depth, Resolve, LegalName;
    NamesStep(t, d);
    if t.up[d] == d {
      assert NameList(t, d) + rest == rest;
    } else {
      var p, c := t.up[d], t.name[d];
      assert NameList(t, d) + rest == NameList(t, p) + ([c] + rest);
      WalkDown(fs, t, p, [c] + rest, slash, follow, directory, n);
      ResolveStep(fs, p, c, rest, slash, follow, directory, n);
      NormalName(c);
    }
  }

  lemma NormalName(n: string)
    requires LegalName(n)
    ensures n != "." && n != ".."
  {
  }

  /** What path_lookupat makes of a path, after `n` links have been followed. */
  ghost function Meant(fs: Fs, start: int, s: string, follow: bool, directory: bool, n: nat): Result
    requires n <= MAXSYMLINKS
  {
    Resolve(fs, Base(fs, start, s), Split(s), SlashAfter(s), follow, directory, n)
  }

  /** A path that goes to the directory `d` by names and then on is the rest of it, looked up there. */
  lemma FromThere(fs: Fs, t: Tree, d: int, start: int, tail: string, follow: bool, directory: bool, n: nat)
    requires ValidTree(t) && d in t.up && OnWay(fs, t, d) && d in fs.dirs && d !in fs.links && Split(tail) != [] && n <= MAXSYMLINKS
    ensures Meant(fs, start, Names(t, d) + ("/" + tail), follow, directory, n)
      == Resolve(fs, d, Split(tail), SlashAfter(tail), follow, directory, n)
  {
    hide Forest, Depth, Split, SlashAfter, LegalName, Resolve;
    SplitNames(t, d);
    NamesStep(t, d);
    SplitJoin(Names(t, d), tail);
    SlashJoin(Names(t, d), tail);
    WalkDown(fs, t, d, Split(tail), SlashAfter(tail), follow, directory, n);
    assert Absolute(Names(t, d) + ("/" + tail));
  }

  /** Resolving the printed path of a dentry, from anywhere, finds that dentry. */
  lemma PrintResolves(fs: Fs, t: Tree, d: int, start: int, follow: bool, n: nat)
    requires ValidTree(t) && d in t.up && OnWay(fs, t, d) && (follow ==> d !in fs.links) && n <= MAXSYMLINKS
    ensures Meant(fs, start, Printed(t, d), follow, false, n) == Found(d)
  {
    hide Forest, Depth, Split, SlashAfter, LegalName;
    NamesStep(t, d);
    NoNames();
    if t.up[d] != d {
      var p, c := t.up[d], t.name[d];
      LegalSplit(c);
      NormalName(c);
      ResolveHere(fs, p, [c], false, follow, false, n);
      FromThere(fs, t, p, start, c, follow, false, n);
    }
  }
}
