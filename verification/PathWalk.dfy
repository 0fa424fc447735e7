/** The iterative walk: one position, one name, and a bounded stack of the names to come back to. */
module PathWalk {
  import Lists
  import opened PathSpec

  /** What a link that is being followed will go on with; nothing for the last component of the path. */
  datatype Saved = None | Name(s: string)

  datatype LastType = LastRoot | LastBind | LastDot | LastDotDot | LastNorm

  /** root and ".." always lead to directories. */
  ghost predicate Proper(fs: Fs) {
    fs.root in fs.dirs && forall d :: d in fs.up ==> fs.up[d] in fs.dirs
  }

  lemma ParentIsDir(fs: Fs, d: int)
    requires Proper(fs) && d in fs.dirs
    ensures Parent(fs, d) in fs.dirs
  {
  }

  /** The components the saved names stand for, innermost first. */
  ghost function Joined(stack: seq<Saved>): seq<string> {
    if stack == [] then []
    else
      var top := stack[|stack| - 1];
      (if top.None? then [] else Split(top.s)) + Joined(stack[..|stack| - 1])
  }

  /** Whether a slash follows the very last component: it is in the outermost name. */
  ghost function FinalSlash(stack: seq<Saved>, name: string): bool {
    if stack == [] || stack[|stack| - 1].None? then SlashAfter(name) else FinalSlash(stack[..|stack| - 1], stack[|stack| - 1].s)
  }

  /** A name starts with a component. */
  predicate NameOk(s: string) { s != "" && s[0] != '/' }

  /** Above `bottom`, every entry has a name to go on with. */
  ghost predicate Above(stack: seq<Saved>, bottom: seq<Saved>) {
    && bottom <= stack && (bottom == [] || bottom == [None])
    && forall i :: |bottom| <= i < |stack| ==> stack[i].Name? && NameOk(stack[i].s)
  }

  class Nameidata {
    const fs: Fs
    const stack: array<Saved>
    var depth: nat
    var path: int
    var links: nat        // total_link_count
    var link: int         // the link picked last
    var follow: bool      // LOOKUP_FOLLOW
    var directory: bool   // LOOKUP_DIRECTORY
    var last: string
    var slash: bool       // a slash follows last
    var lastType: LastType

    constructor (fs: Fs, start: int, follow: bool, directory: bool)
      ensures this.fs == fs && path == start && depth == 0 && links == 0
      ensures this.follow == follow && this.directory == directory && lastType == LastRoot
      ensures fresh(stack) && stack.Length == MAXSYMLINKS
    {
      this.fs := fs;
      stack := new Saved[MAXSYMLINKS](_ => None);
      depth, path, links, link := 0, start, 0, 0;
      this.follow, this.directory, last, slash, lastType := follow, directory, "", false, LastRoot;
    }

    /** The stack cannot overrun: its depth never passes the number of links taken, and that never passes the limit. */
    ghost predicate Valid()
      reads this
    {
      Proper(fs) && stack.Length == MAXSYMLINKS && depth <= links <= MAXSYMLINKS
    }

    ghost function Saves(): seq<Saved>
      requires Valid()
      reads this, stack
    {
      stack[..depth]
    }

    /** What resolving `name` and then everything saved will give. */
    ghost function Meaning(name: string): Result
      requires Valid()
      reads this, stack
    {
      Resolve(fs, path, Split(name) + Joined(Saves()), FinalSlash(Saves(), name), follow, directory, links)
    }

    /** What looking up the last component will give. */
    ghost function LastMeaning(): Result
      requires Valid()
      reads this
    {
      if lastType == LastRoot || lastType == LastBind then Finish(path, fs, directory)
      else ResolveLast(fs, path, last, slash, follow, directory, links)
    }

    /** put_link */
    method PutLink()
      requires Valid() && depth > 0
      modifies this`depth
      ensures Valid() && depth == old(depth) - 1 && Saves() == old(Saves())[..depth]
    {
      depth := depth - 1;
    }

    /** pick_link */
    method PickLink(d: int) returns (ok: bool)
      requires Valid()
      modifies this`depth, this`links, this`link
      ensures Valid() && ok == old(links < MAXSYMLINKS)
      ensures ok ==> depth == old(depth) + 1 && links == old(links) + 1 && link == d && Saves()[..depth - 1] == old(Saves())
      ensures !ok ==> depth == old(depth) && links == old(links)
    {
      if links >= MAXSYMLINKS { return false; }
      links := links + 1;
      depth := depth + 1;
      link := d;
      assert stack[..depth][..depth - 1] == stack[..depth - 1];
      ok := true;
    }
  }

  /** What becomes of one component. */
  datatype Walked = Done | Link | Error(error: PathSpec.Error)

  /** walk_component and step_into */
  method WalkComponent(nd: Nameidata, follow: bool, more: bool) returns (r: Walked)
    requires nd.Valid()
    modifies nd`depth, nd`links, nd`link, nd`path
    ensures nd.Valid()
    ensures var cur := old(nd.path);
      var missing := nd.lastType == LastNorm && (cur, nd.last) !in nd.fs.entries;
      var d := if nd.lastType == LastDotDot && cur != nd.fs.root && cur in nd.fs.up then nd.fs.up[cur]
               else if nd.lastType == LastNorm && !missing then nd.fs.entries[(cur, nd.last)] else cur;
      var linked := nd.lastType == LastNorm && !missing && d in nd.fs.links && (follow || nd.follow);
      && (r.Error? <==> missing || (linked && old(nd.links) == MAXSYMLINKS))
      && (r.Error? ==> r.error == if missing then ENOENT else ELOOP)
      && (r.Link? <==> linked && old(nd.links) < MAXSYMLINKS)
      && (r.Link? ==> nd.link == d && nd.path == cur)
      && (r.Done? ==> nd.path == d)
    ensures var base := if more || old(nd.depth) == 0 then old(nd.depth) else old(nd.depth) - 1;
      && (r.Done? ==> nd.depth == base && nd.links == old(nd.links) && nd.Saves() == old(nd.Saves())[..base])
      && (r.Link? ==> nd.depth == base + 1 && nd.links == old(nd.links) + 1 && nd.Saves()[..base] == old(nd.Saves())[..base])
  {
    if nd.lastType != LastNorm {
      if nd.lastType == LastDotDot && nd.path != nd.fs.root && nd.path in nd.fs.up { nd.path := nd.fs.up[nd.path]; }
      if !more && nd.depth > 0 { nd.PutLink(); }
      return Done;
    }
    if (nd.path, nd.last) !in nd.fs.entries { return Error(ENOENT); }
    var d := nd.fs.entries[(nd.path, nd.last)];
    if !more && nd.depth > 0 { nd.PutLink(); }
    if d !in nd.fs.links || !(follow || nd.follow) {
      nd.path := d;
      return Done;
    }
    var ok := nd.PickLink(d);
    return if ok then Link else Error(ELOOP);
  }

  /** get_link: the rest of the body after leading slashes, or nothing when that is empty */
  method GetLink(nd: Nameidata) returns (e: bool, s: string)
    requires nd.Valid() && nd.link in nd.fs.links
    modifies nd`path, nd`lastType
    ensures e <==> nd.link !in nd.fs.followable
    ensures !e ==> nd.path == Base(nd.fs, old(nd.path), nd.fs.links[nd.link]) && nd.lastType == LastBind
    ensures !e ==> s == SkipSlashes(nd.fs.links[nd.link])
    ensures e ==> nd.path == old(nd.path)
  {
    if nd.link !in nd.fs.followable { return true, ""; }
    nd.lastType := LastBind;
    s := nd.fs.links[nd.link];
    if Absolute(s) {
      nd.path := nd.fs.root;
      s := s[1..];
      while Absolute(s)
        invariant SkipSlashes(s) == SkipSlashes(nd.fs.links[nd.link])
        decreases |s|
      {
        s := s[1..];
      }
    }
    e := false;
  }

  // ---------------------------------------------------------------- one component at a time

  lemma FirstName(s: string)
    requires NameOk(s)
    ensures var n := NameLength(s); n > 0 && Split(s) == [s[..n]] + Split(SkipSlashes(s[n..]))
    ensures var rest := s[NameLength(s)..];
      SlashAfter(s) == if SkipSlashes(rest) == "" then rest != "" else SlashAfter(SkipSlashes(rest))
  {
    SkipAgain(s[NameLength(s)..]);
  }

  lemma TakeMore(stack: seq<Saved>, name: string)
    requires NameOk(name) && SkipSlashes(name[NameLength(name)..]) != ""
    ensures var name' := SkipSlashes(name[NameLength(name)..]);
      && Split(name) + Joined(stack) == [name[..NameLength(name)]] + (Split(name') + Joined(stack))
      && FinalSlash(stack, name) == FinalSlash(stack, name') && NameOk(name')
  {
    hide Split, SlashAfter, SkipSlashes, NameLength, Joined;
    FirstName(name);
    var n := NameLength(name);
    Lists.Reassociate([name[..n]], Split(SkipSlashes(name[n..])), Joined(stack));
  }

  lemma NoMore()
    ensures Split("") == [] && SkipSlashes("") == ""
  {
  }

  lemma TakeSaved(stack: seq<Saved>, name: string)
    requires NameOk(name) && SkipSlashes(name[NameLength(name)..]) == "" && stack != [] && stack[|stack| - 1].Name?
    ensures var top, below := stack[|stack| - 1], stack[..|stack| - 1];
      && Split(name) + Joined(stack) == [name[..NameLength(name)]] + (Split(top.s) + Joined(below))
      && FinalSlash(stack, name) == FinalSlash(below, top.s)
  {
    hide Split, SlashAfter, SkipSlashes, NameLength;
    NoMore();
    FirstName(name);
  }

  lemma TakeLast(stack: seq<Saved>, name: string)
    requires NameOk(name) && SkipSlashes(name[NameLength(name)..]) == "" && (stack == [] || stack == [None])
    ensures Split(name) + Joined(stack) == [name[..NameLength(name)]]
    ensures FinalSlash(stack, name) == (NameLength(name) < |name|)
  {
    FirstName(name);
    assert Joined([]) == [];
    assert [None][..0] == [];
  }

  lemma PushName(stack: seq<Saved>, name: string, body: string)
    requires NameOk(name)
    ensures var stack' := stack + [Name(name)];
      && Split(body) + Joined(stack') == Split(body) + (Split(name) + Joined(stack))
      && FinalSlash(stack', body) == FinalSlash(stack, name)
  {
    var stack' := stack + [Name(name)];
    assert stack'[..|stack'| - 1] == stack;
  }

  /** One step of the reference on a component that is not the last. */
  lemma ResolveStep(fs: Fs, cur: int, c: string, rest: seq<string>, slash: bool, follow: bool, directory: bool, n: nat)
    requires n <= MAXSYMLINKS && rest != [] && cur in fs.searchable
    ensures var r := Resolve(fs, cur, [c] + rest, slash, follow, directory, n);
      if c == "." then r == Resolve(fs, cur, rest, slash, follow, directory, n)
      else if c == ".." then r == Resolve(fs, Parent(fs, cur), rest, slash, follow, directory, n)
      else if (cur, c) !in fs.entries then r == Failed(ENOENT)
      else
        var d := fs.entries[(cur, c)];
        if d in fs.links then
          if n == MAXSYMLINKS then r == Failed(ELOOP)
          else if d !in fs.followable then r == Failed(EACCES)
          else r == Resolve(fs, Base(fs, cur, fs.links[d]), Split(fs.links[d]) + rest, slash, follow, directory, n + 1)
        else if d !in fs.dirs then r == Failed(ENOTDIR)
        else r == Resolve(fs, d, rest, slash, follow, directory, n)
  {
    assert ([c] + rest)[1..] == rest;
  }

  lemma ResolveHere(fs: Fs, cur: int, comps: seq<string>, slash: bool, follow: bool, directory: bool, n: nat)
    requires n <= MAXSYMLINKS
    ensures comps == [] ==> Resolve(fs, cur, comps, slash, follow, directory, n) == Finish(cur, fs, directory)
    ensures comps != [] && cur !in fs.searchable ==> Resolve(fs, cur, comps, slash, follow, directory, n) == Failed(EACCES)
    ensures |comps| == 1 && cur in fs.searchable ==>
      Resolve(fs, cur, comps, slash, follow, directory, n) == ResolveLast(fs, cur, comps[0], slash, follow, directory, n)
  {
  }

  // ---------------------------------------------------------------- link_path_walk

  method SkipLoop(s: string) returns (r: string)
    ensures r == SkipSlashes(s)
  {
    r := s;
    while r != "" && r[0] == '/'
      invariant SkipSlashes(r) == SkipSlashes(s)
      decreases |r|
    {
      r := r[1..];
    }
  }

  /** hash_name, as far as the length goes */
  method HashName(s: string) returns (n: nat)
    ensures n == NameLength(s)
  {
    n := 0;
    while n < |s| && s[n] != '/'
      invariant n <= |s| && NameLength(s) == n + NameLength(s[n..])
    {
      assert s[n..][1..] == s[n + 1..];
      n := n + 1;
    }
  }

  function TypeOf(c: string): LastType {
    if c == "." then LastDot else if c == ".." then LastDotDot else LastNorm
  }

  ghost function Below(nd: Nameidata, more: bool): seq<Saved>
    requires nd.Valid() && (more || nd.depth > 0)
    reads nd, nd.stack
  {
    if more then nd.Saves() else nd.Saves()[..nd.depth - 1]
  }

  /** What the component in hand, the name after it and everything saved below stand for. */
  ghost function Ahead(nd: Nameidata, name: string, more: bool): Result
    requires nd.Valid() && (more || nd.depth > 0)
    reads nd, nd.stack
  {
    Resolve(nd.fs, nd.path, [nd.last] + (Split(name) + Joined(Below(nd, more))), FinalSlash(Below(nd, more), name),
            nd.follow, nd.directory, nd.links)
  }

  ghost function ToGo(nd: Nameidata, name: string): nat
    requires nd.Valid()
    reads nd, nd.stack
  {
    |Split(name) + Joined(nd.Saves())|
  }

  lemma NamesThere(name: string, below: seq<Saved>)
    requires NameOk(name)
    ensures Split(name) + Joined(below) != []
  {
    FirstName(name);
  }

  /** get_link and what link_path_walk does with it */
  method FollowInside(nd: Nameidata, name: string, ghost below: seq<Saved>, ghost bottom: seq<Saved>) returns (failed: bool, next: string)
    requires nd.Valid() && nd.depth == |below| + 1 && nd.Saves()[..|below|] == below && Above(below, bottom)
    requires nd.path in nd.fs.dirs && NameOk(name) && nd.link in nd.fs.links
    modifies nd`depth, nd`path, nd`lastType, nd.stack
    ensures nd.Valid() && (failed <==> nd.link !in nd.fs.followable)
    ensures !failed ==> nd.path in nd.fs.dirs && Above(nd.Saves(), bottom) && NameOk(next)
    ensures !failed ==> var body := nd.fs.links[nd.link];
      nd.Meaning(next) == Resolve(nd.fs, Base(nd.fs, old(nd.path), body), Split(body) + (Split(name) + Joined(below)),
                                  FinalSlash(below, name), nd.follow, nd.directory, nd.links)
  {
    hide Split, SlashAfter, SkipSlashes, Resolve, ResolveLast, Joined, FinalSlash;
    ghost var body := nd.fs.links[nd.link];
    SkippedBody(body);
    var s;
    failed, s := GetLink(nd);
    next := name;
    if failed { return; }
    if s == "" {
      nd.PutLink();
      assert Split(body) + (Split(name) + Joined(below)) == Split(name) + Joined(below);
    } else {
      nd.stack[nd.depth - 1] := Name(name);
      next := s;
      assert nd.Saves() == below + [Name(name)];
      PushName(below, name, s);
    }
  }

  /** The part of the loop of link_path_walk that deals with a component which is not the last one. */
  method Advance(nd: Nameidata, name: string, more: bool, ghost bottom: seq<Saved>) returns (r: Walked, next: string)
    requires nd.Valid() && (more || nd.depth > 0) && Above(Below(nd, more), bottom)
    requires nd.path in nd.fs.dirs && nd.path in nd.fs.searchable && nd.lastType == TypeOf(nd.last) && NameOk(name)
    modifies nd`depth, nd`links, nd`link, nd`path, nd`lastType, nd.stack
    ensures nd.Valid() && !r.Link?
    ensures r.Error? ==> old(Ahead(nd, name, more)) == Failed(r.error)
    ensures r.Done? ==> nd.path in nd.fs.dirs && Above(nd.Saves(), bottom) && NameOk(next) && nd.Meaning(next) == old(Ahead(nd, name, more))
    ensures r.Done? ==> nd.links > old(nd.links) || (nd.links == old(nd.links) && next == name && nd.Saves() == old(Below(nd, more)))
  {
    hide Split, SlashAfter, SkipSlashes, Resolve, ResolveLast, Joined, FinalSlash, Above;
    ghost var below := Below(nd, more);
    NamesThere(name, below);
    ResolveStep(nd.fs, nd.path, nd.last, Split(name) + Joined(below), FinalSlash(below, name), nd.follow, nd.directory, nd.links);
    ParentIsDir(nd.fs, nd.path);
    r := WalkComponent(nd, true, more);
    next := name;
    if r.Error? { return; }
    if r.Link? {
      var failed;
      failed, next := FollowInside(nd, name, below, bottom);
      return if failed then Error(EACCES) else Done, next;
    }
    if nd.path !in nd.fs.dirs { r := Error(ENOTDIR); }
  }

  lemma SkippedBody(body: string)
    ensures Split(SkipSlashes(body)) == Split(body) && SlashAfter(SkipSlashes(body)) == SlashAfter(body)
    ensures SkipSlashes(body) == "" ==> Split(body) == []
    ensures SkipSlashes(body) != "" ==> NameOk(SkipSlashes(body))
  {
    SkipAgain(body);
  }

  lemma TopOfStack(stack: seq<Saved>, bottom: seq<Saved>)
    requires Above(stack, bottom)
    ensures bottom == [] || bottom == [None]
    ensures stack == [] || stack[|stack| - 1].None? ==> stack == bottom
    ensures stack != [] && stack[|stack| - 1].Name? ==> Above(stack[..|stack| - 1], bottom) && NameOk(stack[|stack| - 1].s)
  {
  }

  /** The component in front of a name, and what comes after it; `atEnd` when it is the last of all. */
  method TakeComponent(nd: Nameidata, name: string, ghost bottom: seq<Saved>) returns (atEnd: bool, more: bool, next: string)
    requires nd.Valid() && Above(nd.Saves(), bottom) && NameOk(name) && nd.path in nd.fs.searchable
    modifies nd`last, nd`slash, nd`lastType
    ensures nd.lastType == TypeOf(nd.last)
    ensures atEnd ==> nd.Saves() == bottom && nd.LastMeaning() == old(nd.Meaning(name))
    ensures !atEnd ==> (more || nd.depth > 0) && Above(Below(nd, more), bottom) && NameOk(next)
    ensures !atEnd ==> Ahead(nd, next, more) == old(nd.Meaning(name)) && |Split(next) + Joined(Below(nd, more))| < old(ToGo(nd, name))
  {
    hide Split, SlashAfter, SkipSlashes, Resolve, ResolveLast, Joined, FinalSlash, NameLength, Above;
    TopOfStack(nd.Saves(), bottom);
    ResolveHere(nd.fs, nd.path, Split(name) + Joined(nd.Saves()), FinalSlash(nd.Saves(), name), nd.follow, nd.directory, nd.links);
    var n := HashName(name);
    nd.last, nd.slash, nd.lastType := name[..n], n < |name|, TypeOf(name[..n]);
    next := SkipLoop(name[n..]);
    more, atEnd := next != "", false;
    if more {
      TakeMore(nd.Saves(), name);
    } else if nd.depth == 0 || nd.stack[nd.depth - 1].None? {
      atEnd := true;
      TakeLast(nd.Saves(), name);
    } else {
      next := nd.stack[nd.depth - 1].s;
      TakeSaved(nd.Saves(), name);
    }
  }

  /** link_path_walk: all but the last component, links and all */
  method LinkPathWalk(nd: Nameidata, path: string) returns (r: Walked)
    requires nd.Valid() && nd.path in nd.fs.dirs && (nd.Saves() == [] || nd.Saves() == [None])
    requires nd.lastType == LastRoot || nd.lastType == LastBind
    modifies nd, nd.stack
    ensures nd.Valid() && !r.Link? && nd.follow == old(nd.follow) && nd.directory == old(nd.directory)
    ensures r.Error? ==> old(nd.Meaning(path)) == Failed(r.error)
    ensures r.Done? ==> nd.path in nd.fs.dirs && nd.Saves() == old(nd.Saves()) && nd.LastMeaning() == old(nd.Meaning(path))
    ensures r.Done? ==> nd.links >= old(nd.links) && LastOk(nd)
  {
    hide Split, SlashAfter, SkipSlashes, Resolve, ResolveLast, Joined, FinalSlash, NameLength, Above;
    ghost var bottom, m := nd.Saves(), nd.Meaning(path);
    var name := SkipLoop(path);
    StartName(nd, path);
    if name == "" { return Done; }
    NothingAbove(bottom);
    while true
      invariant nd.Valid() && nd.path in nd.fs.dirs && Above(nd.Saves(), bottom) && NameOk(name)
      invariant nd.Meaning(name) == m
      invariant nd.follow == old(nd.follow) && nd.directory == old(nd.directory) && nd.links >= old(nd.links)
      decreases MAXSYMLINKS - nd.links, ToGo(nd, name)
    {
      NamesThere(name, nd.Saves());
      ResolveHere(nd.fs, nd.path, Split(name) + Joined(nd.Saves()), FinalSlash(nd.Saves(), name), nd.follow, nd.directory, nd.links);
      if nd.path !in nd.fs.searchable { return Error(EACCES); }
      var atEnd, more, next := TakeComponent(nd, name, bottom);
      if atEnd { return Done; }
      r, name := Advance(nd, next, more, bottom);
      if r.Error? { return; }
    }
  }

  ghost predicate LastOk(nd: Nameidata)
    reads nd
  {
    nd.lastType == LastRoot || nd.lastType == LastBind || nd.lastType == TypeOf(nd.last)
  }

  lemma NothingAbove(bottom: seq<Saved>)
    requires bottom == [] || bottom == [None]
    ensures Above(bottom, bottom)
  {
  }

  /** Slashes in front of a path change nothing. */
  lemma StartName(nd: Nameidata, path: string)
    requires nd.Valid() && (nd.Saves() == [] || nd.Saves() == [None])
    ensures nd.Meaning(SkipSlashes(path)) == nd.Meaning(path)
    ensures SkipSlashes(path) == "" ==> nd.Meaning(path) == Finish(nd.path, nd.fs, nd.directory)
    ensures SkipSlashes(path) != "" ==> NameOk(SkipSlashes(path))
  {
    SkippedBody(path);
    assert Joined([]) == [];
    assert [None][..0] == [];
  }

  // ---------------------------------------------------------------- path_lookupat

  /** lookup_last */
  method LookupLast(nd: Nameidata) returns (r: Walked)
    requires nd.Valid() && nd.path in nd.fs.dirs && (nd.Saves() == [] || nd.Saves() == [None]) && LastOk(nd)
    modifies nd`follow, nd`directory, nd`depth, nd`links, nd`link, nd`path
    ensures nd.Valid()
    ensures r.Error? ==> old(nd.LastMeaning()) == Failed(r.error)
    ensures r.Done? ==> old(nd.LastMeaning()) == Finish(nd.path, nd.fs, nd.directory)
    ensures r.Link? ==> nd.depth == 1 && nd.links == old(nd.links) + 1 && nd.link in nd.fs.links && nd.path in nd.fs.dirs
    ensures r.Link? ==> var body := nd.fs.links[nd.link];
      old(nd.LastMeaning()) ==
        if nd.link !in nd.fs.trailable || nd.link !in nd.fs.followable then Failed(EACCES)
        else Resolve(nd.fs, Base(nd.fs, nd.path, body), Split(body), SlashAfter(body), nd.follow, nd.directory, nd.links)
  {
    hide Resolve, Split, SlashAfter;
    if nd.lastType == LastNorm && nd.slash {
      nd.follow, nd.directory := true, true;
    }
    r := WalkComponent(nd, false, false);
  }

  /** path_lookupat: the walk gives what the reference gives. */
  method PathLookupat(fs: Fs, start: int, s: string, follow: bool, directory: bool) returns (r: Result)
    requires Proper(fs) && start in fs.dirs
    ensures r == Resolve(fs, Base(fs, start, s), Split(s), SlashAfter(s), follow, directory, 0)
  {
    hide Split, SlashAfter, SkipSlashes, Resolve, ResolveLast;
    var nd := new Nameidata(fs, if Absolute(s) then fs.root else start, follow, directory);
    var name := s;
    assert nd.Saves() == [];
    assert Split(s) + Joined([]) == Split(s);
    while true
      invariant fresh(nd) && fresh(nd.stack) && nd.fs == fs
      invariant nd.Valid() && nd.path in fs.dirs && (nd.Saves() == [] || nd.Saves() == [None])
      invariant nd.lastType == LastRoot || nd.lastType == LastBind
      invariant nd.Meaning(name) == Resolve(fs, Base(fs, start, s), Split(s), SlashAfter(s), follow, directory, 0)
      decreases MAXSYMLINKS - nd.links
    {
      var w := LinkPathWalk(nd, name);
      if w.Error? { return Failed(w.error); }
      w := LookupLast(nd);
      if w.Error? { return Failed(w.error); }
      if w.Done? { return Finish(nd.path, fs, nd.directory); }
      if nd.link !in fs.trailable { return Failed(EACCES); }
      nd.stack[0] := None;
      ghost var body := fs.links[nd.link];
      SkippedBody(body);
      var failed;
      failed, name := GetLink(nd);
      if failed { return Failed(EACCES); }
      assert nd.Saves() == [None];
      assert Split(name) + Joined([None]) == Split(body);
    }
  }
}
