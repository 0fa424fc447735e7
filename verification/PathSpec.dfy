/** Pathname resolution as a recursion that puts the body of a symbolic link in place of its name. */
module PathSpec {

  const MAXSYMLINKS := 40

  /** One filesystem as a walk sees it. */
  datatype Fs = Fs(
    root: int,
    entries: map<(int, string), int>,  // what a name in a directory leads to
    up: map<int, int>,                 // ".." of directories
    dirs: set<int>,                    // what can be looked up in
    links: map<int, string>,           // bodies of symbolic links
    searchable: set<int>,              // may_lookup
    followable: set<int>,              // security_inode_follow_link
    trailable: set<int>)               // may_follow_link, for the last component only

  datatype Result = Found(d: int) | Failed(error: Error)

  datatype Error = ENOENT | ENOTDIR | EACCES | ELOOP

  // ---------------------------------------------------------------- names in a path

  function SkipSlashes(s: string): (r: string)
    ensures |r| <= |s| && (r == "" || r[0] != '/')
  {
    if s != "" && s[0] == '/' then SkipSlashes(s[1..]) else s
  }

  function NameLength(s: string): (n: nat)
    ensures n <= |s| && (forall i :: 0 <= i < n ==> s[i] != '/') && (n < |s| ==> s[n] == '/')
  {
    if s == "" || s[0] == '/' then 0 else 1 + NameLength(s[1..])
  }

  /** The components of a path. */
  function Split(s: string): (r: seq<string>)
    decreases |s|
  {
    var t := SkipSlashes(s);
    if t == "" then [] else [t[..NameLength(t)]] + Split(t[NameLength(t)..])
  }

  /** A slash follows the last component. */
  function SlashAfter(s: string): (r: bool)
    decreases |s|
  {
    var t := SkipSlashes(s);
    if t == "" then false
    else
      var rest := t[NameLength(t)..];
      if Split(rest) == [] then rest != "" else SlashAfter(rest)
  }

  predicate Normal(c: string) { c != "." && c != ".." }

  predicate Absolute(s: string) { s != "" && s[0] == '/' }

  // ---------------------------------------------------------------- the reference

  function Parent(fs: Fs, d: int): int {
    if d == fs.root || d !in fs.up then d else fs.up[d]
  }

  function Finish(d: int, fs: Fs, directory: bool): (r: Result) {
    if directory && d !in fs.dirs then Failed(ENOTDIR) else Found(d)
  }

  /** Where following a link with this body starts. */
  function Base(fs: Fs, cur: int, body: string): int {
    if Absolute(body) then fs.root else cur
  }

  /**
   The meaning of the components `comps`, looked up from `cur` after `n` links. `slash`: a slash follows the last one;
   `follow`: the last one is followed if it is a link; `directory`: only a directory will do.
   */
  function Resolve(fs: Fs, cur: int, comps: seq<string>, slash: bool, follow: bool, directory: bool, n: nat): (r: Result)
    requires n <= MAXSYMLINKS
    decreases MAXSYMLINKS - n, |comps|
  {
    if comps == [] then Finish(cur, fs, directory)
    else if cur !in fs.searchable then Failed(EACCES)
    else if |comps| == 1 then ResolveLast(fs, cur, comps[0], slash, follow, directory, n)
    else
      var c, rest := comps[0], comps[1..];
      if c == "." then Resolve(fs, cur, rest, slash, follow, directory, n)
      else if c == ".." then Resolve(fs, Parent(fs, cur), rest, slash, follow, directory, n)
      else if (cur, c) !in fs.entries then Failed(ENOENT)
      else
        var d := fs.entries[(cur, c)];
        if d in fs.links then
          if n >= MAXSYMLINKS then Failed(ELOOP)
          else if d !in fs.followable then Failed(EACCES)
          else Resolve(fs, Base(fs, cur, fs.links[d]), Split(fs.links[d]) + rest, slash, follow, directory, n + 1)
        else if d !in fs.dirs then Failed(ENOTDIR)
        else Resolve(fs, d, rest, slash, follow, directory, n)
  }

  /** The last component. A slash after a name asks for a directory, and for a link to be followed, from here on. */
  function ResolveLast(fs: Fs, cur: int, c: string, slash: bool, follow: bool, directory: bool, n: nat): (r: Result)
    requires n <= MAXSYMLINKS
    decreases MAXSYMLINKS - n, 0
  {
    var follow', directory' := follow || (slash && Normal(c)), directory || (slash && Normal(c));
    if c == "." then Finish(cur, fs, directory)
    else if c == ".." then Finish(Parent(fs, cur), fs, directory)
    else if (cur, c) !in fs.entries then Failed(ENOENT)
    else
      var d := fs.entries[(cur, c)];
      if d in fs.links && follow' then
        if n >= MAXSYMLINKS then Failed(ELOOP)
        else if d !in fs.trailable || d !in fs.followable then Failed(EACCES)
        else
          var body := fs.links[d];
          Resolve(fs, Base(fs, cur, body), Split(body), SlashAfter(body), follow', directory', n + 1)
      else Finish(d, fs, directory')
  }

  // ---------------------------------------------------------------- about names

  lemma {:induction false} SkipAgain(s: string)
    ensures SkipSlashes(SkipSlashes(s)) == SkipSlashes(s)
    ensures Split(SkipSlashes(s)) == Split(s) && SlashAfter(SkipSlashes(s)) == SlashAfter(s)
  {
    if s != "" && s[0] == '/' { SkipAgain(s[1..]); }
  }

  /** SlashAfter is what it says: the path has a component and its last character is a slash. */
  lemma {:induction false} SlashAfterIsLast(s: string)
    ensures SlashAfter(s) <==> Split(s) != [] && s[|s| - 1] == '/'
    decreases |s|
  {
    var t := SkipSlashes(s);
    SkipSuffix(s);
    if t != "" {
      var n := NameLength(t);
      var rest := t[n..];
      SlashAfterIsLast(rest);
      if rest != "" { assert rest[|rest| - 1] == t[|t| - 1]; }
      if Split(rest) == [] && rest != "" { OnlySlashes(rest); }
    }
  }

  lemma {:induction false} SkipSuffix(s: string)
    ensures SkipSlashes(s) != "" ==> s != "" && s[|s| - 1] == SkipSlashes(s)[|SkipSlashes(s)| - 1]
  {
    if s != "" && s[0] == '/' { SkipSuffix(s[1..]); }
  }

  lemma {:induction false} OnlySlashes(s: string)
    requires s != "" && Split(s) == []
    ensures s[|s| - 1] == '/'
  {
    assert SkipSlashes(s) == "";
    SkipAll(s);
  }

  lemma {:induction false} SkipAll(s: string)
    requires SkipSlashes(s) == ""
    ensures forall i :: 0 <= i < |s| ==> s[i] == '/'
  {
    if s != "" {
      SkipAll(s[1..]);
      forall i | 0 <= i < |s| ensures s[i] == '/' { if i > 0 { assert s[i] == s[1..][i - 1]; } }
    }
  }
}
