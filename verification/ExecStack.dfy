/** The new stack of a program: strings copied backwards page by page, and found again by walking forwards. */
module ExecStack {
  import opened Lists

  const PAGE_SIZE: nat := 4096
  const MAX_ARG_STRLEN: nat := 131072

  type Byte = int

  /** A string as the user passes it, without its NUL. */
  ghost predicate IsString(s: seq<Byte>) {
    forall i :: 0 <= i < |s| ==> s[i] != 0
  }

  ghost predicate AllStrings(strs: seq<seq<Byte>>) {
    forall i :: 0 <= i < |strs| ==> IsString(strs[i])
  }

  /** No string is longer than the limit, with its NUL. */
  ghost predicate AllFit(strs: seq<seq<Byte>>) {
    forall i :: 0 <= i < |strs| ==> |strs[i]| + 1 <= MAX_ARG_STRLEN
  }

  /** Strings one after the other, each with its NUL. */
  ghost function LayOut(strs: seq<seq<Byte>>): (r: seq<Byte>) {
    if strs == [] then [] else strs[0] + [0] + LayOut(strs[1..])
  }

  lemma {:induction false} LayOutAppend(a: seq<seq<Byte>>, b: seq<seq<Byte>>)
    ensures LayOut(a + b) == LayOut(a) + LayOut(b)
  {
    if a == [] {
      assert a + b == b;
    } else {
      calc {
        LayOut(a + b);
        { assert (a + b)[1..] == a[1..] + b; }
        a[0] + [0] + LayOut(a[1..] + b);
        { LayOutAppend(a[1..], b); }
        a[0] + [0] + (LayOut(a[1..]) + LayOut(b));
        { Reassociate(a[0] + [0], LayOut(a[1..]), LayOut(b)); }
        LayOut(a) + LayOut(b);
      }
    }
  }

  lemma LayOutFront(s: seq<Byte>, strs: seq<seq<Byte>>)
    ensures LayOut([s] + strs) == (s + [0]) + LayOut(strs)
  {
    assert ([s] + strs)[1..] == strs;
  }

  lemma Slice(mem: array<Byte>, a: nat, b: nat)
    requires a <= b <= mem.Length
    ensures mem[..][a..b] == mem[a..b]
  {
  }

  lemma Cut(s: seq<Byte>, a: nat, m: nat, b: nat)
    requires a <= m <= b <= |s|
    ensures s[a..b] == s[a..m] + s[m..b]
  {
  }

  lemma Within(s: seq<Byte>, p: nat, top: nat, a: nat, b: nat)
    requires p <= top <= |s| && a <= b <= top - p
    ensures s[p..top][a..b] == s[p + a..p + b]
  {
    var l, r := s[p..top][a..b], s[p + a..p + b];
    assert |l| == |r| && forall i :: 0 <= i < |l| ==> l[i] == s[p + a + i] && r[i] == s[p + a + i];
  }

  datatype Errno = OK | E2BIG | EFAULT | EINVAL

  /** Where reading a string of the user faults, if it does: when its length is taken, or when it is copied. */
  datatype Fault = Never | AtLength | AtCopy

  datatype UserString = UserString(text: seq<Byte>, fault: Fault)

  ghost function Texts(strs: seq<UserString>): (r: seq<seq<Byte>>)
    ensures |r| == |strs| && forall i :: 0 <= i < |strs| ==> r[i] == strs[i].text
  {
    seq(|strs|, i requires 0 <= i < |strs| => strs[i].text)
  }

  ghost predicate Readable(strs: seq<UserString>) {
    forall i :: 0 <= i < |strs| ==> strs[i].fault == Never
  }

  /** The page that is mapped for copying, which stays mapped from one string to the next. */
  datatype Kmap = Unmapped | Mapped(kpos: nat)

  /** Pages from `floor` on can be had. */
  ghost predicate MapOk(m: Kmap, floor: nat) {
    m.Mapped? ==> m.kpos % PAGE_SIZE == 0 && m.kpos >= floor
  }

  /** The bytes of one string and its NUL go below `pos`, in pieces that do not cross a page. */
  method CopyOne(mem: array<Byte>, pos0: nat, s: seq<Byte>, faults: bool, floor: nat, m: Kmap) returns (r: Errno, m': Kmap)
    requires |s| + 1 <= pos0 <= mem.Length && floor % PAGE_SIZE == 0 && MapOk(m, floor)
    modifies mem
    ensures MapOk(m', floor)
    ensures r == OK <==> !faults && pos0 - |s| - 1 >= floor
    ensures r == OK || (r == E2BIG && pos0 - |s| - 1 < floor) || (r == EFAULT && faults)
    ensures r == OK ==> mem[pos0 - |s| - 1..pos0] == s + [0]
    ensures forall i :: 0 <= i < pos0 - |s| - 1 || pos0 <= i < mem.Length ==> mem[i] == old(mem[i])
  {
    var bytes := s + [0];
    var pos, len := pos0, |s| + 1;
    m' := m;
    ghost var start := pos0 - len;
    while len > 0
      invariant 0 <= len <= |bytes| && pos == start + len && MapOk(m', floor) && (len < |bytes| ==> !faults && pos >= floor)
      invariant forall i :: pos <= i < pos0 ==> mem[i] == bytes[i - start]
      invariant forall i :: 0 <= i < mem.Length && !(pos <= i < pos0) ==> mem[i] == old(mem[i])
    {
      var offset := pos % PAGE_SIZE;
      if offset == 0 { offset := PAGE_SIZE; }
      var n := if offset > len then len else offset;
      PieceOf(pos, offset, n);
      offset := offset - n;
      pos := pos - n;
      len := len - n;
      var page := pos - pos % PAGE_SIZE;
      PageOf(pos, floor);
      if m'.Unmapped? || m'.kpos != page {
        if page < floor { return E2BIG, m'; }
        m' := Mapped(page);
      }
      if faults { return EFAULT, m'; }
      CopyFromUser(mem, m'.kpos + offset, bytes, len, n);
    }
    r := OK;
    assert mem[start..pos0] == bytes;
  }

  /** copy_from_user into a mapped page */
  method CopyFromUser(mem: array<Byte>, at: nat, bytes: seq<Byte>, from: nat, n: nat)
    requires at + n <= mem.Length && from + n <= |bytes|
    modifies mem
    ensures forall i {:trigger mem[i]} :: 0 <= i < mem.Length ==>
      mem[i] == if at <= i < at + n then bytes[from + (i - at)] else old(mem[i])
  {
    forall i | 0 <= i < n { mem[at + i] := bytes[from + i]; }
    assert forall i {:trigger mem[i]} :: at <= i < at + n ==> mem[at + (i - at)] == bytes[from + (i - at)];
  }

  /** The piece of `n` bytes below `pos` is in one page, from `offset - n` on. */
  lemma PieceOf(pos: nat, offset: nat, n: nat)
    requires pos > 0 && offset == (if pos % PAGE_SIZE == 0 then PAGE_SIZE else pos % PAGE_SIZE) && 0 < n <= offset
    ensures n <= pos && (pos - n) - (pos - n) % PAGE_SIZE + (offset - n) == pos - n
  {
  }

  lemma PageOf(pos: nat, floor: nat)
    requires floor % PAGE_SIZE == 0
    ensures pos - pos % PAGE_SIZE < floor <==> pos < floor
    ensures (pos - pos % PAGE_SIZE) % PAGE_SIZE == 0
  {
  }

  /** copy_strings: the last string first, so that the first ends up lowest */
  method CopyStrings(mem: array<Byte>, p: nat, strs: seq<UserString>, floor: nat) returns (q: nat, r: Errno)
    requires p <= mem.Length && floor % PAGE_SIZE == 0
    modifies mem
    ensures q <= p && (forall i :: p <= i < mem.Length ==> mem[i] == old(mem[i]))
    ensures r == OK <==> Readable(strs) && AllFit(Texts(strs)) && (strs == [] || p >= floor + |LayOut(Texts(strs))|)
    ensures r == OK ==> q == p - |LayOut(Texts(strs))| && mem[q..p] == LayOut(Texts(strs))
    ensures r == OK ==> forall i :: 0 <= i < q ==> mem[i] == old(mem[i])
    ensures r == OK || (r == E2BIG && (p < floor + |LayOut(Texts(strs))| || !AllFit(Texts(strs)))) || (r == EFAULT && !Readable(strs))
  {
    hide LayOut;
    q := p;
    var argc, m := |strs|, Unmapped;
    ghost var texts := Texts(strs);
    NothingLaidOut();
    assert texts[|strs|..] == [];
    while argc > 0
      invariant 0 <= argc <= |strs| && MapOk(m, floor)
      invariant forall i :: argc <= i < |strs| ==> |texts[i]| + 1 <= MAX_ARG_STRLEN && strs[i].fault == Never
      invariant q <= p && q == p - |LayOut(texts[argc..])| && mem[q..p] == LayOut(texts[argc..]) && (argc < |strs| ==> q >= floor)
      invariant forall i :: 0 <= i < mem.Length && !(q <= i < p) ==> mem[i] == old(mem[i])
    {
      argc := argc - 1;
      var s := strs[argc].text;
      assert texts[argc..] == [s] + texts[argc + 1..];
      LayOutFront(s, texts[argc + 1..]);
      LayOutSplit(texts, argc);
      if strs[argc].fault == AtLength { return q, EFAULT; }
      if |s| + 1 > MAX_ARG_STRLEN { return q, E2BIG; }
      if |s| + 1 > q { return q, E2BIG; }
      ghost var tail := mem[q..p];
      r, m := CopyOne(mem, q, s, strs[argc].fault == AtCopy, floor, m);
      if r != OK { return q, r; }
      ghost var from := q;
      q := q - (|s| + 1);
      assert mem[q..from] == s + [0];
      assert mem[from..p] == tail;
      assert mem[q..p] == mem[q..from] + mem[from..p];
    }
    assert texts[0..] == texts;
    r := OK;
  }

  lemma NothingLaidOut()
    ensures LayOut([]) == []
  {
  }

  lemma LayOutSplit(strs: seq<seq<Byte>>, k: nat)
    requires k <= |strs|
    ensures |LayOut(strs)| == |LayOut(strs[..k])| + |LayOut(strs[k..])|
  {
    assert strs == strs[..k] + strs[k..];
    LayOutAppend(strs[..k], strs[k..]);
  }

  /** The strings of a program, as do_execveat_common lays them out. */
  ghost predicate Loaded(mem: seq<Byte>, p: nat, exec: nat, argv: seq<seq<Byte>>, envp: seq<seq<Byte>>, filename: seq<Byte>) {
    && AllStrings(argv) && AllStrings(envp) && IsString(filename) && AllFit(argv) && AllFit(envp)
    && exec == p + |LayOut(argv)| + |LayOut(envp)| && exec + |filename| + 1 <= |mem|
    && mem[p..exec + |filename| + 1] == LayOut(argv) + LayOut(envp) + (filename + [0])
  }

  /** The copies in do_execveat_common: the filename, which is in kernel memory, then the environment, then the arguments */
  method LoadStrings(mem: array<Byte>, top: nat, argv: seq<UserString>, envp: seq<UserString>, filename: seq<Byte>, floor: nat)
    returns (p: nat, exec: nat, r: Errno)
    requires top <= mem.Length && AllStrings(Texts(argv)) && AllStrings(Texts(envp)) && IsString(filename) && floor % PAGE_SIZE == 0
    modifies mem
    ensures r == OK ==> p <= top && Loaded(mem[..], p, exec, Texts(argv), Texts(envp), filename) && exec + |filename| + 1 == top
    ensures forall i :: top <= i < mem.Length ==> mem[i] == old(mem[i])
    ensures r == OK <==>
      && Readable(argv) && Readable(envp) && AllFit(Texts(argv)) && AllFit(Texts(envp)) && AllFit([filename])
      && top >= floor + |LayOut(Texts(argv))| + |LayOut(Texts(envp))| + |filename| + 1
    ensures r == OK || r == E2BIG || (r == EFAULT && !(Readable(argv) && Readable(envp)))
  {
    hide LayOut, AllStrings, IsString, AllFit, Readable;
    var name := [UserString(filename, Never)];
    NameAlone(filename);
    exec, r := CopyStrings(mem, top, name, floor);
    p := exec;
    if r != OK { return; }
    ghost var named := mem[exec..top];
    p, r := CopyStrings(mem, exec, envp, floor);
    if r != OK { return; }
    ghost var env, mid := mem[p..exec], p;
    assert mem[exec..top] == named;
    p, r := CopyStrings(mem, p, argv, floor);
    NoneEmpty(argv);
    NoneEmpty(envp);
    if r != OK { return; }
    assert mem[mid..exec] == env && mem[exec..top] == named;
    Cut(mem[..], p, exec, top);
    Cut(mem[..], p, mid, exec);
    Slice(mem, p, mid);
    Slice(mem, mid, exec);
    Slice(mem, exec, top);
  }

  lemma NameAlone(filename: seq<Byte>)
    ensures var name := [UserString(filename, Never)];
      Texts(name) == [filename] && Readable(name) && LayOut(Texts(name)) == filename + [0]
  {
    assert Texts([UserString(filename, Never)]) == [filename];
    assert [filename][1..] == [] && filename + [0] + [] == filename + [0];
  }

  lemma NoneEmpty(strs: seq<UserString>)
    ensures strs == [] ==> LayOut(Texts(strs)) == [] && Readable(strs) && AllFit(Texts(strs))
  {
  }

  // ---------------------------------------------------------------- finding the strings again

  /** The first string starts at `p`. */
  lemma FirstString(mem: seq<Byte>, p: nat, strs: seq<seq<Byte>>)
    requires strs != [] && AllStrings(strs) && p + |LayOut(strs)| <= |mem| && mem[p..p + |LayOut(strs)|] == LayOut(strs)
    ensures var n := |strs[0]|;
      && p + n + 1 + |LayOut(strs[1..])| == p + |LayOut(strs)| && mem[p + n] == 0 && (forall i :: p <= i < p + n ==> mem[i] != 0)
      && mem[p..p + n + 1] == strs[0] + [0]
      && mem[p + n + 1..p + |LayOut(strs)|] == LayOut(strs[1..]) && AllStrings(strs[1..])
  {
    var all, n := LayOut(strs), |strs[0]|;
    assert all == strs[0] + [0] + LayOut(strs[1..]);
    assert mem[p..p + |all|][n] == 0;
    forall i | p <= i < p + n ensures mem[i] != 0 {
      assert mem[i] == mem[p..p + |all|][i - p] == strs[0][i - p];
      assert IsString(strs[0]);
    }
    assert mem[p..p + n + 1] == mem[p..p + |all|][..n + 1];
    assert mem[p + n + 1..p + |all|] == mem[p..p + |all|][n + 1..];
  }

  /** remove_arg_zero: the walk to the first NUL goes from page to page */
  method RemoveArgZero(mem: array<Byte>, p0: nat, argc: nat, ghost exec: nat, ghost argv: seq<seq<Byte>>,
                       ghost envp: seq<seq<Byte>>, ghost filename: seq<Byte>)
    returns (p: nat, argc': nat)
    requires argc == |argv| && Loaded(mem[..], p0, exec, argv, envp, filename)
    ensures argc == 0 ==> p == p0 && argc' == 0
    ensures argc > 0 ==> argc' == |argv[1..]| && Loaded(mem[..], p, exec, argv[1..], envp, filename)
  {
    p, argc' := p0, argc;
    if argc == 0 { return; }
    ghost var end := p0 + |argv[0]|;
    FirstOfLoaded(mem[..], p0, exec, argv, envp, filename);
    var offset := 0;
    var again := true;
    while again
      invariant p0 <= p <= end && end < mem.Length && (!again ==> p == end)
      invariant mem[end] == 0 && forall i :: p0 <= i < end ==> mem[i] != 0
      decreases end - p, again
    {
      offset := p % PAGE_SIZE;
      ghost var from := p;
      while offset < PAGE_SIZE && mem[p] != 0
        invariant offset <= PAGE_SIZE && from <= p <= end && p - from == offset - from % PAGE_SIZE
        decreases PAGE_SIZE - offset
      {
        offset, p := offset + 1, p + 1;
      }
      again := offset == PAGE_SIZE;
    }
    p := p + 1;
    argc' := argc - 1;
  }

  lemma FirstOfLoaded(mem: seq<Byte>, p: nat, exec: nat, argv: seq<seq<Byte>>, envp: seq<seq<Byte>>, filename: seq<Byte>)
    requires Loaded(mem, p, exec, argv, envp, filename) && argv != []
    ensures var n := |argv[0]|;
      && p + n + 1 <= |mem| && mem[p + n] == 0 && (forall i :: p <= i < p + n ==> mem[i] != 0)
      && Loaded(mem, p + n + 1, exec, argv[1..], envp, filename)
  {
    hide LayOut, AllStrings, IsString;
    var args, n, top := LayOut(argv), |argv[0]|, exec + |filename| + 1;
    Within(mem, p, top, 0, |args|);
    FirstString(mem, p, argv);
    var rest := LayOut(argv[1..]);
    Within(mem, p, top, |args|, top - p);
    Cut(mem, p + n + 1, p + |args|, top);
    assert rest + LayOut(envp) + (filename + [0]) == rest + (LayOut(envp) + (filename + [0]));
  }

  // ---------------------------------------------------------------- create_elf_tables

  /** strnlen_user: the length with the NUL, more than `max` if there is none in reach, 0 for a fault */
  method StrnlenUser(mem: array<Byte>, p: nat, max: nat) returns (len: nat)
    requires p <= mem.Length
    ensures 0 < len <= max ==> p + len <= mem.Length && mem[p + len - 1] == 0 && forall i :: p <= i < p + len - 1 ==> mem[i] != 0
    ensures len == 0 ==> mem.Length - p < max && forall i :: p <= i < mem.Length ==> mem[i] != 0
    ensures len > max ==> len == max + 1 && p + max <= mem.Length && forall i :: p <= i < p + max ==> mem[i] != 0
  {
    len := 0;
    while len < max
      invariant len <= max && p + len <= mem.Length && forall i :: p <= i < p + len ==> mem[i] != 0
    {
      if p + len == mem.Length { return 0; }
      if mem[p + len] == 0 { return len + 1; }
      len := len + 1;
    }
    len := max + 1;
  }

  /** The addresses of strings laid out from `p` on. */
  ghost function Pointers(p: nat, strs: seq<seq<Byte>>): (r: seq<int>)
    ensures |r| == |strs|
    decreases |strs|
  {
    if strs == [] then [] else [p] + Pointers(p + |strs[0]| + 1, strs[1..])
  }

  /** Every pointer finds its string, in order. */
  lemma {:induction false} PointersFind(mem: seq<Byte>, p: nat, strs: seq<seq<Byte>>, i: nat)
    requires i < |strs| && AllStrings(strs) && p + |LayOut(strs)| <= |mem| && mem[p..p + |LayOut(strs)|] == LayOut(strs)
    ensures var a := Pointers(p, strs)[i];
      p <= a && a + |strs[i]| + 1 <= p + |LayOut(strs)| && mem[a..a + |strs[i]| + 1] == strs[i] + [0]
    decreases i
  {
    FirstString(mem, p, strs);
    if i > 0 { PointersFind(mem, p + |strs[0]| + 1, strs[1..], i - 1); }
  }

  /** The words of the user's stack, by address, after `words` have been put at `sp` and above. */
  ghost function Put(stack: map<int, int>, sp: int, words: seq<int>): map<int, int>
    decreases |words|
  {
    if words == [] then stack else Put(stack, sp, words[..|words| - 1])[sp + 8 * (|words| - 1) := words[|words| - 1]]
  }

  lemma PutOne(stack: map<int, int>, sp: int, words: seq<int>, w: int)
    ensures Put(stack, sp, words + [w]) == Put(stack, sp, words)[sp + 8 * |words| := w]
  {
    assert (words + [w])[..|words|] == words;
  }

  /** Each word is in its place. */
  lemma {:induction false} PutHolds(stack: map<int, int>, sp: int, words: seq<int>, k: nat)
    requires k < |words|
    ensures sp + 8 * k in Put(stack, sp, words) && Put(stack, sp, words)[sp + 8 * k] == words[k]
    decreases |words|
  {
    if k < |words| - 1 { PutHolds(stack, sp, words[..|words| - 1], k); }
  }

  /** Nothing outside the block changes. */
  lemma {:induction false} PutElsewhere(stack: map<int, int>, sp: int, words: seq<int>, a: int)
    requires a in stack && !(sp <= a < sp + 8 * |words|)
    ensures a in Put(stack, sp, words) && Put(stack, sp, words)[a] == stack[a]
    decreases |words|
  {
    if words != [] { PutElsewhere(stack, sp, words[..|words| - 1], a); }
  }

  /** What a loop over strings has left: `rest`, from `p` on. */
  ghost predicate Remaining(mem: seq<Byte>, p: nat, rest: seq<seq<Byte>>, end: nat) {
    && AllStrings(rest) && AllFit(rest) && p + |LayOut(rest)| == end <= |mem| && mem[p..end] == LayOut(rest)
  }

  /** The next string has the length that strnlen_user finds. */
  lemma NextRemaining(mem: seq<Byte>, p: nat, rest: seq<seq<Byte>>, end: nat)
    requires Remaining(mem, p, rest, end) && rest != []
    ensures var n := |rest[0]|;
      && n + 1 <= MAX_ARG_STRLEN && p + n < |mem| && mem[p + n] == 0 && (forall i :: p <= i < p + n ==> mem[i] != 0)
      && Remaining(mem, p + n + 1, rest[1..], end) && Pointers(p, rest) == [p] + Pointers(p + n + 1, rest[1..])
  {
    hide LayOut;
    FirstString(mem, p, rest);
  }

  /** One of the two loops of create_elf_tables: pointers to `n` strings from `p` on; `room` words can be stored before a fault */
  method PutPointers(mem: array<Byte>, p0: nat, n: nat, sp0: int, stack0: map<int, int>, room: nat, ghost strs: seq<seq<Byte>>)
    returns (sp: int, stack: map<int, int>, p: nat, r: Errno)
    requires n == |strs| && Remaining(mem[..], p0, strs, p0 + |LayOut(strs)|)
    ensures r == if room >= n then OK else EFAULT
    ensures r == OK ==> sp == sp0 + 8 * n && stack == Put(stack0, sp0, Pointers(p0, strs)) && p == p0 + |LayOut(strs)|
  {
    hide LayOut, Remaining, Pointers, Put;
    sp, stack, p, r := sp0, stack0, p0, OK;
    ghost var rest, words, end := strs, [], p0 + |LayOut(strs)|;
    PutNone(stack0, sp0);
    var left := n;
    while left > 0
      invariant left == |rest| && Remaining(mem[..], p, rest, end)
      invariant words + Pointers(p, rest) == Pointers(p0, strs) && stack == Put(stack0, sp0, words)
      invariant sp == sp0 + 8 * |words| && |words| + left == n && |words| <= room
    {
      if n - left == room { return sp, stack, p, EFAULT; }
      NextRemaining(mem[..], p, rest, end);
      PutOne(stack0, sp0, words, p);
      stack, words := stack[sp := p], words + [p];
      sp := sp + 8;
      var len := StrnlenUser(mem, p, MAX_ARG_STRLEN);
      SameLength(mem[..], p, len, |rest[0]|);
      if len == 0 || len > MAX_ARG_STRLEN { return sp, stack, p, EINVAL; }
      p, rest, left := p + len, rest[1..], left - 1;
    }
    NoneRemaining(mem[..], p, rest, end);
    assert words + Pointers(p, rest) == words;
  }

  lemma PutNone(stack: map<int, int>, sp: int)
    ensures Put(stack, sp, []) == stack
  {
  }

  lemma NoneRemaining(mem: seq<Byte>, p: nat, rest: seq<seq<Byte>>, end: nat)
    requires Remaining(mem, p, rest, end) && rest == []
    ensures p == end && Pointers(p, rest) == []
  {
  }

  lemma SameLength(mem: seq<Byte>, p: nat, len: nat, n: nat)
    requires n + 1 <= MAX_ARG_STRLEN && p + n < |mem| && mem[p + n] == 0 && forall i :: p <= i < p + n ==> mem[i] != 0
    requires 0 < len <= MAX_ARG_STRLEN ==> p + len <= |mem| && mem[p + len - 1] == 0 && forall i :: p <= i < p + len - 1 ==> mem[i] != 0
    requires len == 0 ==> forall i :: p <= i < |mem| ==> mem[i] != 0
    requires len > MAX_ARG_STRLEN ==> p + MAX_ARG_STRLEN <= |mem| && forall i :: p <= i < p + MAX_ARG_STRLEN ==> mem[i] != 0
    ensures len == n + 1
  {
  }

  /** The block of words that the program starts with: argc, argv, envp and the auxiliary vector. */
  ghost function StartBlock(argStart: nat, argv: seq<seq<Byte>>, envp: seq<seq<Byte>>, aux: seq<int>): seq<int> {
    [|argv|] + Pointers(argStart, argv) + [0] + Pointers(argStart + |LayOut(argv)|, envp) + [0] + aux
  }

  lemma {:induction false} PutAppend(stack: map<int, int>, sp: int, a: seq<int>, b: seq<int>)
    ensures Put(stack, sp, a + b) == Put(Put(stack, sp, a), sp + 8 * |a|, b)
    decreases |b|
  {
    if b == [] {
      assert a + b == a;
    } else {
      var c, w := b[..|b| - 1], b[|b| - 1];
      PutAppend(stack, sp, a, c);
      assert a + b == (a + c) + [w] && b == c + [w];
      PutOne(stack, sp, a + c, w);
      PutOne(Put(stack, sp, a), sp + 8 * |a|, c, w);
    }
  }

  /** copy_to_user of the auxiliary vector */
  method PutAux(sp0: int, stack0: map<int, int>, aux: seq<int>) returns (stack: map<int, int>)
    ensures stack == Put(stack0, sp0, aux)
  {
    stack := stack0;
    for i := 0 to |aux|
      invariant stack == Put(stack0, sp0, aux[..i])
    {
      assert aux[..i + 1] == aux[..i] + [aux[i]];
      PutOne(stack0, sp0, aux[..i], aux[i]);
      stack := stack[sp0 + 8 * i := aux[i]];
    }
    assert aux[..|aux|] == aux;
  }

  /**
   create_elf_tables on a stack that grows down: `p` is where the strings start, `aligned` what arch_align_stack makes of
   it, `platform` the room for the platform strings, `aux` the auxiliary vector with its AT_NULL pair. `grows` says whether
   find_extend_vma succeeds, and `room` how many words can be stored before a fault.
   */
  method CreateElfTables(mem: array<Byte>, p: nat, aligned: nat, platform: nat, argc: nat, envc: nat, aux: seq<int>,
                         stack0: map<int, int>, grows: bool, room: nat, ghost exec: nat,
                         ghost argv: seq<seq<Byte>>, ghost envp: seq<seq<Byte>>, ghost filename: seq<Byte>)
    returns (sp: int, stack: map<int, int>, argEnd: nat, envEnd: nat, r: Errno)
    requires argc == |argv| && envc == |envp| && aligned <= p && Loaded(mem[..], p, exec, argv, envp, filename)
    ensures r == if grows && room >= |StartBlock(p, argv, envp, aux)| then OK else EFAULT
    ensures r == OK ==> stack == Put(stack0, sp, StartBlock(p, argv, envp, aux))
    ensures sp % 16 == 0 && sp + 8 * |StartBlock(p, argv, envp, aux)| <= aligned - platform - 16 <= p
    ensures r == OK ==> argEnd == p + |LayOut(argv)| && envEnd == exec
  {
    hide LayOut, AllStrings, AllFit, Pointers, Put, Loaded;
    stack, argEnd, envEnd, r := stack0, p, p, EFAULT;
    var q := aligned - platform - 16;
    var items := (argc + 1) + (envc + 1) + 1;
    sp := q - 8 * |aux| - 8 * items;
    sp := sp - sp % 16;
    LoadedParts(mem[..], p, exec, argv, envp, filename);
    if !grows || room == 0 { return; }
    stack := stack[sp := argc];
    var at;
    at, stack, argEnd, r := PutPointers(mem, p, argc, sp + 8, stack, room - 1, argv);
    if r != OK { return; }
    if room <= 1 + argc { return sp, stack, argEnd, envEnd, EFAULT; }
    stack := stack[at := 0];
    at, stack, envEnd, r := PutPointers(mem, argEnd, envc, at + 8, stack, room - 2 - argc, envp);
    if r != OK { return; }
    if room <= 2 + argc + envc { return sp, stack, argEnd, envEnd, EFAULT; }
    stack := stack[at := 0];
    if room < 3 + argc + envc + |aux| { return sp, stack, argEnd, envEnd, EFAULT; }
    stack := PutAux(at + 8, stack, aux);
    BlockPut(stack0, sp, p, argv, envp, aux);
  }

  /** The stores of create_elf_tables, one part after the other, put the block. */
  lemma BlockPut(stack0: map<int, int>, sp: int, p: nat, argv: seq<seq<Byte>>, envp: seq<seq<Byte>>, aux: seq<int>)
    ensures var a, e := Pointers(p, argv), Pointers(p + |LayOut(argv)|, envp);
      var s1 := Put(stack0[sp := |argv|], sp + 8, a)[sp + 8 + 8 * |argv| := 0];
      var s2 := Put(s1, sp + 16 + 8 * |argv|, e)[sp + 16 + 8 * |argv| + 8 * |envp| := 0];
      Put(stack0, sp, StartBlock(p, argv, envp, aux)) == Put(s2, sp + 24 + 8 * |argv| + 8 * |envp|, aux)
  {
    hide LayOut, Pointers, Put;
    var a, e := Pointers(p, argv), Pointers(p + |LayOut(argv)|, envp);
    var b1 := [|argv|] + a;
    var b2 := b1 + [0] + e;
    PutNone(stack0, sp);
    assert [] + [|argv|] == [|argv|];
    PutOne(stack0, sp, [], |argv|);
    PutAppend(stack0, sp, [|argv|], a);
    PutOne(stack0, sp, b1, 0);
    PutAppend(stack0, sp, b1 + [0], e);
    PutOne(stack0, sp, b2, 0);
    PutAppend(stack0, sp, b2 + [0], aux);
    assert StartBlock(p, argv, envp, aux) == b2 + [0] + aux;
  }

  lemma LoadedParts(mem: seq<Byte>, p: nat, exec: nat, argv: seq<seq<Byte>>, envp: seq<seq<Byte>>, filename: seq<Byte>)
    requires Loaded(mem, p, exec, argv, envp, filename)
    ensures Remaining(mem, p, argv, p + |LayOut(argv)|) && Remaining(mem, p + |LayOut(argv)|, envp, exec)
  {
    hide LayOut, AllStrings, AllFit, IsString;
    var top, a := exec + |filename| + 1, |LayOut(argv)|;
    Within(mem, p, top, 0, a);
    Within(mem, p, top, a, exec - p);
  }
}
