/** What a path means, in terms of the tree alone: dots, slashes, missing names, links and their limit. */
module PathLaws {
  import opened Lists
  import opened DirTree
  import opened PathSpec
  import opened PathWalk
  import opened PathPrint

  /** `d` is a directory that is reached by names alone and can be searched. */
  ghost predicate Reachable(fs: Fs, t: Tree, d: int) {
    ValidTree(t) && d in t.up && OnWay(fs, t, d) && d in fs.dirs && d !in fs.links && d in fs.searchable
  }

  /** ".." after a directory leads to its parent; after the root it stays there. */
  lemma DotDotResolves(fs: Fs, t: Tree, d: int, start: int, follow: bool, directory: bool)
    requires Reachable(fs, t, d) && (d != fs.root ==> d in fs.up && fs.up[d] == t.up[d])
    ensures Meant(fs, start, Names(t, d) + "/..", follow, directory, 0) == Found(t.up[d])
  {
    hide Forest, Depth, Split, SlashAfter, LegalName;
    SplitName("..");
    FromThere(fs, t, d, start, "..", follow, directory, 0);
    ResolveHere(fs, d, [".."], false, follow, directory, 0);
    if t.up[d] == d { assert d == fs.root; } else { assert t.up[d] in fs.dirs; }
    assert "/" + ".." == "/..";
    OnlyRoot(fs, t, d);
  }

  /** The root of the file system is the root of the tree. */
  lemma {:induction false} OnlyRoot(fs: Fs, t: Tree, d: int)
    requires ValidTree(t) && d in t.up && OnWay(fs, t, d)
    ensures fs.root in t.up && t.up[fs.root] == fs.root
    decreases Depth(t.up, d)
  {
    hide Forest, Depth, LegalName;
    NamesStep(t, d);
    if t.up[d] != d { OnlyRoot(fs, t, t.up[d]); }
  }

  /** "." after a directory stays there. */
  lemma DotResolves(fs: Fs, t: Tree, d: int, start: int, follow: bool, directory: bool)
    requires Reachable(fs, t, d)
    ensures Meant(fs, start, Names(t, d) + "/.", follow, directory, 0) == Found(d)
  {
    hide Forest, Depth, Split, SlashAfter, LegalName;
    SplitName(".");
    FromThere(fs, t, d, start, ".", follow, directory, 0);
    ResolveHere(fs, d, ["."], false, follow, directory, 0);
    assert "/" + "." == "/.";
  }

  /** Dots on the way: ".." goes on from the parent, "." from the directory itself. */
  lemma DotsGoOn(fs: Fs, t: Tree, d: int, start: int, tail: string, follow: bool, directory: bool)
    requires Reachable(fs, t, d) && (d != fs.root ==> d in fs.up && fs.up[d] == t.up[d]) && Split(tail) != []
    ensures t.up[d] in t.up
    ensures Meant(fs, start, Names(t, d) + ("/" + ("../" + tail)), follow, directory, 0)
      == Meant(fs, start, Names(t, t.up[d]) + ("/" + tail), follow, directory, 0)
    ensures Meant(fs, start, Names(t, d) + ("/" + ("./" + tail)), follow, directory, 0)
      == Meant(fs, start, Names(t, d) + ("/" + tail), follow, directory, 0)
  {
    hide Forest, Depth, Split, SlashAfter, LegalName, Resolve;
    NamesStep(t, d);
    OnlyRoot(fs, t, d);
    Behind("..", tail);
    Behind(".", tail);
    assert ".." + "/" == "../" && "." + "/" == "./";
    FromThere(fs, t, d, start, "../" + tail, follow, directory, 0);
    FromThere(fs, t, d, start, "./" + tail, follow, directory, 0);
    FromThere(fs, t, d, start, tail, follow, directory, 0);
    FromThere(fs, t, t.up[d], start, tail, follow, directory, 0);
    ResolveStep(fs, d, "..", Split(tail), SlashAfter(tail), follow, directory, 0);
    ResolveStep(fs, d, ".", Split(tail), SlashAfter(tail), follow, directory, 0);
  }

  /** A name, a slash and a path. */
  lemma Behind(c: string, tail: string)
    requires c != "" && forall i :: 0 <= i < |c| ==> c[i] != '/'
    ensures c + "/" + tail == c + ("/" + tail)
    ensures Split(c + "/" + tail) == [c] + Split(tail)
    ensures SlashAfter(c + "/" + tail) == if Split(tail) == [] then true else SlashAfter(tail)
  {
    hide Split, SlashAfter;
    assert c + "/" + tail == c + ("/" + tail);
    SplitName(c);
    SplitJoin(c, tail);
    SlashJoin(c, tail);
  }

  /** Slashes after a dentry that is no link change nothing when it is a directory; otherwise nothing can follow it. */
  lemma SlashResolves(fs: Fs, t: Tree, d: int, start: int, tail: string, follow: bool, directory: bool)
    requires ValidTree(t) && d in t.up && t.up[d] != d && OnWay(fs, t, d) && d !in fs.links
    ensures Split(tail) == [] && d in fs.dirs ==> Meant(fs, start, Names(t, d) + ("/" + tail), follow, directory, 0) == Found(d)
    ensures d !in fs.dirs ==> Meant(fs, start, Names(t, d) + ("/" + tail), follow, directory, 0) == Failed(ENOTDIR)
    ensures d in fs.dirs && d !in fs.searchable && Split(tail) != [] ==>
      Meant(fs, start, Names(t, d) + ("/" + tail), follow, directory, 0) == Failed(EACCES)
  {
    hide Forest, Depth, Split, SlashAfter, LegalName, Resolve;
    NamesStep(t, d);
    var p, c := t.up[d], t.name[d];
    NormalName(c);
    LegalChars(c);
    Behind(c, tail);
    Reassociate(Names(t, p), "/" + c, "/" + tail);
    assert "/" + c + ("/" + tail) == "/" + (c + "/" + tail);
    FromThere(fs, t, p, start, c + "/" + tail, follow, directory, 0);
    if Split(tail) == [] {
      assert [c] + Split(tail) == [c];
      ResolveHere(fs, p, [c], true, follow, directory, 0);
    } else {
      ResolveStep(fs, p, c, Split(tail), SlashAfter(tail), follow, directory, 0);
      ResolveHere(fs, d, Split(tail), SlashAfter(tail), follow, directory, 0);
    }
  }

  lemma LegalChars(c: string)
    requires LegalName(c)
    ensures c != "" && forall i :: 0 <= i < |c| ==> c[i] != '/'
  {
  }

  /** A name that a directory does not have is not found, whatever comes after it. */
  lemma MissingFails(fs: Fs, t: Tree, d: int, start: int, c: string, tail: string, follow: bool, directory: bool)
    requires Reachable(fs, t, d) && LegalName(c) && (d, c) !in fs.entries
    ensures Meant(fs, start, Names(t, d) + ("/" + c), follow, directory, 0) == Failed(ENOENT)
    ensures Meant(fs, start, Names(t, d) + ("/" + (c + "/" + tail)), follow, directory, 0) == Failed(ENOENT)
  {
    hide Forest, Depth, Split, SlashAfter, LegalName, Resolve;
    LegalSplit(c);
    NormalName(c);
    LegalChars(c);
    Behind(c, tail);
    FromThere(fs, t, d, start, c, follow, directory, 0);
    FromThere(fs, t, d, start, c + "/" + tail, follow, directory, 0);
    ResolveHere(fs, d, [c], false, follow, directory, 0);
    if Split(tail) == [] {
      assert [c] + Split(tail) == [c];
      ResolveHere(fs, d, [c], true, follow, directory, 0);
    } else {
      ResolveStep(fs, d, c, Split(tail), SlashAfter(tail), follow, directory, 0);
    }
  }

  // ---------------------------------------------------------------- links

  /** `c` is a link in the directory `p`. */
  ghost predicate LinkIn(fs: Fs, p: int, c: string, l: int) {
    LegalName(c) && (p, c) in fs.entries && fs.entries[(p, c)] == l && l in fs.links
  }

  /** A path through a link is its body with the rest of the path, looked up where the link is, with one more link counted. */
  lemma LinkGoesOn(fs: Fs, t: Tree, p: int, l: int, c: string, start: int, tail: string, follow: bool, directory: bool, n: nat)
    requires Reachable(fs, t, p) && LinkIn(fs, p, c, l) && Split(tail) != [] && n <= MAXSYMLINKS
    ensures Meant(fs, start, Names(t, p) + ("/" + (c + "/" + tail)), follow, directory, n)
      == if n == MAXSYMLINKS then Failed(ELOOP)
         else if l !in fs.followable then Failed(EACCES)
         else Meant(fs, p, (if fs.links[l] == "" then "." else fs.links[l]) + ("/" + tail), follow, directory, n + 1)
  {
    hide Forest, Depth, Split, SlashAfter, LegalName, Resolve;
    NormalName(c);
    LegalChars(c);
    Behind(c, tail);
    FromThere(fs, t, p, start, c + "/" + tail, follow, directory, n);
    ResolveStep(fs, p, c, Split(tail), SlashAfter(tail), follow, directory, n);
    var body := fs.links[l];
    SplitJoin(body, tail);
    SlashJoin(body, tail);
    if body == "" && n < MAXSYMLINKS {
      Behind(".", tail);
      NoNames();
      assert Split(body) + Split(tail) == Split(tail);
      ResolveStep(fs, p, ".", Split(tail), SlashAfter(tail), follow, directory, n + 1);
    }
  }

  /** A link at the end is followed if that is asked for or a slash comes after it, and a slash wants a directory. */
  lemma LinkAtEnd(fs: Fs, t: Tree, p: int, l: int, c: string, start: int, slash: bool, follow: bool, directory: bool, n: nat)
    requires Reachable(fs, t, p) && LinkIn(fs, p, c, l) && n <= MAXSYMLINKS
    ensures Meant(fs, start, Names(t, p) + ("/" + if slash then c + "/" else c), follow, directory, n)
      == if !follow && !slash then (if directory && l !in fs.dirs then Failed(ENOTDIR) else Found(l))
         else if n == MAXSYMLINKS then Failed(ELOOP)
         else if l !in fs.followable || l !in fs.trailable then Failed(EACCES)
         else Meant(fs, p, fs.links[l], true, directory || slash, n + 1)
  {
    hide Forest, Depth, Split, SlashAfter, LegalName, Resolve;
    NormalName(c);
    LegalSplit(c);
    LegalChars(c);
    NoNames();
    Behind(c, "");
    assert c + "/" + "" == c + "/" && [c] + Split("") == [c];
    FromThere(fs, t, p, start, if slash then c + "/" else c, follow, directory, n);
    ResolveHere(fs, p, [c], slash, follow, directory, n);
  }

  /** Every entry but the last is a link whose body is the printed path of the next. */
  ghost predicate Chain(fs: Fs, t: Tree, l: seq<int>) {
    && ValidTree(t) && |l| > 0
    && (forall i {:trigger l[i]} :: 0 <= i < |l| ==> l[i] in t.up && OnWay(fs, t, l[i]))
    && (forall i {:trigger l[i]} :: 0 <= i < |l| - 1 ==>
          t.up[l[i]] != l[i] && l[i] in fs.links && l[i] in fs.followable && l[i] in fs.trailable)
    && (forall i {:trigger l[i]} :: 0 <= i < |l| - 1 ==> fs.links[l[i]] == Printed(t, l[i + 1]))
  }

  /** A chain of links leads to its end if it is not longer than the limit allows, and otherwise fails; so does every loop. */
  lemma {:induction false} ChainExact(fs: Fs, t: Tree, l: seq<int>, start: int, n: nat)
    requires Chain(fs, t, l) && n <= 40
    ensures n + |l| - 1 <= 40 && l[|l| - 1] !in fs.links ==> Meant(fs, start, Printed(t, l[0]), true, false, n) == Found(l[|l| - 1])
    ensures n + |l| - 1 > 40 ==> Meant(fs, start, Printed(t, l[0]), true, false, n) == Failed(ELOOP)
    decreases |l|
  {
    hide Forest, Depth, Split, SlashAfter, LegalName, Resolve, Names;
    var d := l[0];
    if |l| == 1 {
      if d !in fs.links { PrintResolves(fs, t, d, start, true, n); }
    } else {
      NamesStep(t, d);
      NamesStep(t, l[1]);
      LinkAtEnd(fs, t, t.up[d], d, t.name[d], start, false, true, false, n);
      if n < MAXSYMLINKS {
        ChainExact(fs, t, l[1..], t.up[d], n + 1);
      }
    }
  }
}
