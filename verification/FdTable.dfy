/** The file descriptor table: a bitmap of open descriptors, a second bitmap of full words, and a hint. */
module FdTable {
  import opened Bits

  const BITS: nat := 64

  /** The size alloc_fdtable chooses for a table that is to hold descriptor `nr`. */
  function TableSize(nr: nat, nrOpen: nat): (size: nat)
    requires nrOpen > 0
  {
    var wanted := RoundupPow2(nr / 128 + 1) * 128;
    if wanted > nrOpen then ((nrOpen - 1) / BITS) * BITS + BITS else wanted
  }

  /** A whole number of words, and enough for `nr` exactly when the limit allows it. */
  lemma TableSizeFits(nr: nat, nrOpen: nat)
    requires nrOpen > 0
    ensures TableSize(nr, nrOpen) % BITS == 0 && TableSize(nr, nrOpen) > 0
    ensures nr < nrOpen ==> TableSize(nr, nrOpen) > nr
    ensures TableSize(nr, nrOpen) <= nr ==> TableSize(nr, nrOpen) >= nrOpen
    ensures TableSize(nr, nrOpen) < nrOpen + BITS && TableSize(nr, nrOpen) <= 2 * nr + 256
  {
  }

  /** Bits in the second bitmap: one for each word, padded to whole words. */
  function FullBits(max: nat): (n: nat)
    ensures max % BITS == 0 ==> max / BITS <= n
  {
    ((max / BITS + BITS - 1) / BITS) * BITS
  }

  ghost predicate WordFull(open: seq<bool>, w: nat) {
    BITS * w + BITS <= |open| && forall i :: BITS * w <= i < BITS * w + BITS ==> open[i]
  }

  /** Bit `w` is set exactly when word `w` is all ones, and no padding bit is set. */
  ghost predicate FullAgrees(open: seq<bool>, full: seq<bool>) {
    && |full| == FullBits(|open|)
    && forall w {:trigger full[w]} :: 0 <= w < |full| ==> (full[w] <==> WordFull(open, w))
  }

  class Fdtable {
    const max: nat
    const fd: array<int>        // 0 for an empty slot
    const open: array<bool>
    const cloexec: array<bool>
    const full: array<bool>

    ghost predicate Shape() {
      && max > 0 && max % BITS == 0
      && fd.Length == max && open.Length == max && cloexec.Length == max && full.Length == FullBits(max)
      && open != cloexec && open != full && cloexec != full
    }

    ghost predicate Valid()
      reads fd, open, cloexec, full
    {
      && Shape() && FullAgrees(open[..], full[..])
      && forall i :: 0 <= i < max && fd[i] != 0 ==> open[i]
    }

    /** alloc_fdtable: nothing in the arrays is meaningful yet */
    constructor (max: nat)
      requires max > 0 && max % BITS == 0
      ensures Shape() && this.max == max && fresh(fd) && fresh(open) && fresh(cloexec) && fresh(full)
    {
      this.max := max;
      fd := new int[max];
      open := new bool[max];
      cloexec := new bool[max];
      full := new bool[FullBits(max)];
    }

    predicate AllOnes(w: nat)
      requires Shape() && BITS * w + BITS <= max
      reads open
    {
      forall i :: BITS * w <= i < BITS * w + BITS ==> open[i]
    }

    /** __set_open_fd */
    method SetOpenFd(n: nat)
      requires Shape() && FullAgrees(open[..], full[..]) && n < max
      modifies open, full
      ensures open[..] == old(open[..])[n := true] && FullAgrees(open[..], full[..])
    {
      open[n] := true;
      var w := n / BITS;
      WordOf(n, max);
      assert open[..] == old(open[..])[n := true];
      assert AllOnes(w) <==> WordFull(open[..], w) by { SameOnes(w); }
      if AllOnes(w) { full[w] := true; }
      SetKeepsFull(old(open[..]), old(full[..]), n, full[w]);
      assert full[..] == old(full[..])[w := full[w]];
    }

    lemma SameOnes(w: nat)
      requires Shape() && BITS * w + BITS <= max
      ensures AllOnes(w) <==> WordFull(open[..], w)
    {
      if WordFull(open[..], w) {
        forall i | BITS * w <= i < BITS * w + BITS ensures open[i] { assert open[..][i]; }
      }
    }

    /** __clear_open_fd */
    method ClearOpenFd(n: nat)
      requires Shape() && FullAgrees(open[..], full[..]) && n < max
      modifies open, full
      ensures open[..] == old(open[..])[n := false] && FullAgrees(open[..], full[..])
    {
      open[n] := false;
      full[n / BITS] := false;
      ClearKeepsFull(old(open[..]), old(full[..]), n);
      assert full[..] == old(full[..])[n / BITS := false];
    }
  }

  lemma WordOf(n: nat, max: nat)
    requires n < max && max % BITS == 0
    ensures n / BITS < max / BITS <= FullBits(max) && BITS * (n / BITS) <= n < BITS * (n / BITS) + BITS <= max
  {
  }

  lemma SetKeepsFull(open: seq<bool>, full: seq<bool>, n: nat, bit: bool)
    requires FullAgrees(open, full) && n < |open| && |open| % BITS == 0 && n / BITS < |full|
    requires bit <==> full[n / BITS] || WordFull(open[n := true], n / BITS)
    ensures FullAgrees(open[n := true], full[n / BITS := bit])
  {
    var open', full' := open[n := true], full[n / BITS := bit];
    WordOf(n, |open|);
    forall w {:trigger full'[w]} | 0 <= w < |full'| ensures full'[w] <==> WordFull(open', w) {
      if w != n / BITS { assert full'[w] == full[w]; OtherWord(open, n, w, true); }
      else if full[w] { assert WordFull(open, w); }
    }
  }

  lemma ClearKeepsFull(open: seq<bool>, full: seq<bool>, n: nat)
    requires FullAgrees(open, full) && n < |open| && |open| % BITS == 0 && n / BITS < |full|
    ensures FullAgrees(open[n := false], full[n / BITS := false])
  {
    var open', full' := open[n := false], full[n / BITS := false];
    WordOf(n, |open|);
    forall w {:trigger full'[w]} | 0 <= w < |full'| ensures full'[w] <==> WordFull(open', w) {
      if w != n / BITS { assert full'[w] == full[w]; OtherWord(open, n, w, false); }
      else { assert !open'[n]; }
    }
  }

  lemma OtherWord(open: seq<bool>, n: nat, w: nat, v: bool)
    requires n < |open| && w != n / BITS
    ensures WordFull(open[n := v], w) <==> WordFull(open, w)
  {
    var open' := open[n := v];
    assert forall i {:trigger open'[i]} :: BITS * w <= i < BITS * w + BITS && i < |open| ==> open'[i] == open[i];
    if WordFull(open', w) {
      forall i {:trigger open[i]} | BITS * w <= i < BITS * w + BITS ensures open[i] { assert open'[i]; }
    }
  }

  // ---------------------------------------------------------------- searching

  /** The least zero bit in [start, size), or `size`. */
  ghost predicate NextZero(bits: seq<bool>, size: nat, start: nat, r: nat)
    requires size <= |bits|
  {
    && r <= size && (r < size ==> start <= r && !bits[r]) && (start <= size ==> start <= r)
    && forall i :: start <= i < r ==> bits[i]
  }

  /** find_next_zero_bit */
  method FindNextZeroBit(bits: array<bool>, size: nat, start: nat) returns (r: nat)
    requires size <= bits.Length
    ensures NextZero(bits[..], size, start, r)
  {
    if start >= size { return size; }
    r := start;
    while r < size && bits[r]
      invariant start <= r <= size && forall i :: start <= i < r ==> bits[i]
    {
      r := r + 1;
    }
  }

  /** find_next_fd: words that are full are passed over without looking at them */
  method FindNextFd(fdt: Fdtable, start: nat) returns (r: nat)
    requires fdt.Valid() && start < fdt.max
    ensures NextZero(fdt.open[..], fdt.max, start, r)
  {
    var maxbit, bitbit := fdt.max / BITS, start / BITS;
    WordOf(start, fdt.max);
    var word := FindNextZeroBit(fdt.full, maxbit, bitbit);
    var first := word * BITS;
    if first > fdt.max { assert false; }
    var from := if first > start then first else start;
    r := FindNextZeroBit(fdt.open, fdt.max, from);
    forall i {:trigger fdt.open[i]} | start <= i < from ensures fdt.open[i] {
      SkippedWord(fdt.open[..], fdt.full[..], bitbit, word, i);
      assert fdt.open[..][i];
    }
  }

  lemma SkippedWord(open: seq<bool>, full: seq<bool>, from: nat, to: nat, i: nat)
    requires FullAgrees(open, full) && to <= |full| && BITS * from <= i < BITS * to && (forall w :: from <= w < to ==> full[w])
    ensures i < |open| && open[i]
  {
    var w := i / BITS;
    assert full[w] && WordFull(open, w);
  }

  // ---------------------------------------------------------------- growing

  function Zeros(n: nat): (z: seq<bool>)
    ensures |z| == n && forall i :: 0 <= i < n ==> !z[i]
  {
    seq(n, _ => false)
  }

  /** memcpy of `n` bits, and memset of the rest */
  method CopyBits(dst: array<bool>, src: array<bool>, n: nat)
    requires n <= dst.Length && n <= src.Length && dst != src
    modifies dst
    ensures dst[..] == src[..n] + Zeros(dst.Length - n)
  {
    for i := 0 to dst.Length
      invariant forall j :: 0 <= j < i ==> dst[j] == (j < n && src[j])
    {
      dst[i] := if i < n then src[i] else false;
    }
  }

  /** What is copied agrees again, if no bit for a word past the copied part is set. */
  lemma CopiedFull(open: seq<bool>, full: seq<bool>, count: nat, max: nat)
    requires FullAgrees(open, full) && |open| % BITS == 0 && count % BITS == 0 && count <= |open| && count <= max && max % BITS == 0
    requires FullBits(count) <= |full| && FullBits(count) <= FullBits(max)
    requires forall w {:trigger full[w]} :: count / BITS <= w < FullBits(count) ==> !full[w]
    ensures FullAgrees(open[..count] + Zeros(max - count), full[..FullBits(count)] + Zeros(FullBits(max) - FullBits(count)))
  {
    var open', full' := open[..count] + Zeros(max - count), full[..FullBits(count)] + Zeros(FullBits(max) - FullBits(count));
    forall w {:trigger full'[w]} | 0 <= w < |full'| ensures full'[w] <==> WordFull(open', w) {
      if w < count / BITS {
        assert full'[w] == full[w];
        CopiedWord(open, count, max, w);
      } else if BITS * w < |open'| {
        assert !open'[BITS * w];
      }
    }
  }

  lemma CopiedWord(open: seq<bool>, count: nat, max: nat, w: nat)
    requires count % BITS == 0 && count <= |open| && count <= max && w < count / BITS
    ensures WordFull(open[..count] + Zeros(max - count), w) <==> WordFull(open, w)
  {
    var open' := open[..count] + Zeros(max - count);
    assert BITS * w + BITS <= count;
    if WordFull(open', w) {
      forall i {:trigger open[i]} | BITS * w <= i < BITS * w + BITS ensures open[i] { assert open'[i]; }
    }
  }

  /** copy_fd_bitmaps */
  method CopyBitmaps(nfdt: Fdtable, ofdt: Fdtable, count: nat)
    requires nfdt.Shape() && ofdt.Shape() && count % BITS == 0 && count <= nfdt.max && count <= ofdt.max
    requires {nfdt.open, nfdt.cloexec, nfdt.full} !! {ofdt.open, ofdt.cloexec, ofdt.full}
    requires FullAgrees(ofdt.open[..], ofdt.full[..])
    requires forall w {:trigger ofdt.full[w]} :: count / BITS <= w < FullBits(count) && w < ofdt.full.Length ==> !ofdt.full[w]
    modifies nfdt.open, nfdt.cloexec, nfdt.full
    ensures nfdt.open[..] == ofdt.open[..count] + Zeros(nfdt.max - count)
    ensures nfdt.cloexec[..] == ofdt.cloexec[..count] + Zeros(nfdt.max - count)
    ensures FullAgrees(nfdt.open[..], nfdt.full[..])
  {
    FullBitsGrow(count, nfdt.max);
    FullBitsGrow(count, ofdt.max);
    CopyBits(nfdt.open, ofdt.open, count);
    CopyBits(nfdt.cloexec, ofdt.cloexec, count);
    CopyBits(nfdt.full, ofdt.full, FullBits(count));
    assert ofdt.open[..][..count] == ofdt.open[..count];
    assert ofdt.full[..][..FullBits(count)] == ofdt.full[..FullBits(count)];
    CopiedFull(ofdt.open[..], ofdt.full[..], count, nfdt.max);
  }

  lemma FullBitsGrow(a: nat, b: nat)
    requires a <= b
    ensures FullBits(a) <= FullBits(b)
  {
  }

  /** copy_fdtable */
  method CopyFdtable(nfdt: Fdtable, ofdt: Fdtable)
    requires nfdt.Shape() && ofdt.Valid() && nfdt.max >= ofdt.max && nfdt.fd != ofdt.fd
    requires {nfdt.open, nfdt.cloexec, nfdt.full} !! {ofdt.open, ofdt.cloexec, ofdt.full}
    modifies nfdt.fd, nfdt.open, nfdt.cloexec, nfdt.full
    ensures nfdt.Valid()
    ensures forall i :: 0 <= i < nfdt.max ==> nfdt.open[i] == (i < ofdt.max && ofdt.open[i])
    ensures forall i :: 0 <= i < nfdt.max ==> nfdt.cloexec[i] == (i < ofdt.max && ofdt.cloexec[i])
    ensures forall i :: 0 <= i < nfdt.max ==> nfdt.fd[i] == if i < ofdt.max then ofdt.fd[i] else 0
  {
    for i := 0 to nfdt.max
      invariant forall j :: 0 <= j < i ==> nfdt.fd[j] == if j < ofdt.max then ofdt.fd[j] else 0
      invariant ofdt.Valid()
    {
      nfdt.fd[i] := if i < ofdt.max then ofdt.fd[i] else 0;
    }
    PaddingClear(ofdt);
    CopyBitmaps(nfdt, ofdt, ofdt.max);
    assert forall i :: 0 <= i < nfdt.max ==> nfdt.open[i] == nfdt.open[..][i] && nfdt.cloexec[i] == nfdt.cloexec[..][i];
  }

  lemma PaddingClear(fdt: Fdtable)
    requires fdt.Valid()
    ensures forall w {:trigger fdt.full[w]} :: fdt.max / BITS <= w < fdt.full.Length ==> !fdt.full[w]
  {
    forall w {:trigger fdt.full[w]} | fdt.max / BITS <= w < fdt.full.Length ensures !fdt.full[w] {
      assert fdt.full[..][w] <==> WordFull(fdt.open[..], w);
    }
  }

  // ---------------------------------------------------------------- files_struct

  datatype Error = EMFILE | ENOMEM | EBADF | EBUSY

  class Files {
    var fdt: Fdtable
    var nextFd: nat

    constructor (fdt: Fdtable)
      ensures this.fdt == fdt && nextFd == 0
    {
      this.fdt, nextFd := fdt, 0;
    }

    ghost predicate Valid()
      reads this, fdt, fdt.fd, fdt.open, fdt.cloexec, fdt.full
    {
      && fdt.Valid() && nextFd <= fdt.max
      && forall i :: 0 <= i < nextFd ==> fdt.open[i]
    }

    /** Descriptor `i` is in use. */
    ghost predicate Used(i: nat)
      reads this, fdt, fdt.open
      requires fdt.Shape()
    {
      i < fdt.max && fdt.open[i]
    }

    /** The file behind descriptor `i`, 0 for none. */
    ghost function File(i: nat): int
      reads this, fdt, fdt.fd
      requires fdt.Shape()
    {
      if i < fdt.max then fdt.fd[i] else 0
    }

    ghost predicate OnExec(i: nat)
      reads this, fdt, fdt.cloexec
      requires fdt.Shape()
    {
      i < fdt.max && fdt.cloexec[i]
    }

    /** Nobody can tell the table from the one before. */
    twostate predicate SameView()
      requires old(fdt.Shape()) && fdt.Shape()
      reads this, fdt, fdt.open, fdt.fd, fdt.cloexec
    {
      forall i: nat {:trigger Used(i)} {:trigger File(i)} {:trigger OnExec(i)} ::
        Used(i) == old(Used(i)) && File(i) == old(File(i)) && OnExec(i) == old(OnExec(i))
    }

    /** expand_files and expand_fdtable; `nrOpen` and `nrOpen2` are sysctl_nr_open at the check and at the allocation */
    method ExpandFiles(nr: nat, nrOpen: nat, nrOpen2: nat, memory: bool) returns (expanded: bool, error: Option)
      requires Valid() && nrOpen2 > 0
      modifies this`fdt
      ensures Valid() && nextFd == old(nextFd) && SameView()
      ensures error.None? ==> nr < fdt.max && (expanded <==> nr >= old(fdt.max))
      ensures error.None? && expanded ==>
        fresh(fdt) && fresh(fdt.fd) && fresh(fdt.open) && fresh(fdt.cloexec) && fresh(fdt.full)
      ensures error.Some? ==> !expanded
      ensures !expanded ==> fdt == old(fdt)
      ensures error == Some(ENOMEM) <==> !memory && old(fdt.max) <= nr < nrOpen
      ensures error == Some(EMFILE) <==> nr >= old(fdt.max) && (nr >= nrOpen || (memory && TableSize(nr, nrOpen2) <= nr))
      ensures error.None? || error == Some(EMFILE) || error == Some(ENOMEM)
    {
      expanded, error := false, None;
      if nr < fdt.max { return; }
      if nr >= nrOpen { return false, Some(EMFILE); }
      if !memory { return false, Some(ENOMEM); }
      TableSizeFits(nr, nrOpen2);
      var new_fdt := new Fdtable(TableSize(nr, nrOpen2));
      if new_fdt.max <= nr { return false, Some(EMFILE); }
      CopyFdtable(new_fdt, fdt);
      fdt := new_fdt;
      expanded := true;
    }

    /** `n` is the least descriptor at or above `start` that is not in use. */
    ghost predicate LeastUnused(start: nat, n: nat)
      requires fdt.Shape()
      reads this, fdt, fdt.open
    {
      start <= n && !Used(n) && forall i: nat {:trigger Used(i)} :: start <= i < n ==> Used(i)
    }

    /** Only the bits of descriptor `n` have changed: it is open or not, and closed on exec or not. */
    twostate predicate OnlyBits(n: nat, used: bool, cloexec: bool)
      requires old(fdt.Shape()) && fdt.Shape()
      reads this, fdt, fdt.open, fdt.fd, fdt.cloexec
    {
      forall i: nat {:trigger Used(i)} {:trigger File(i)} {:trigger OnExec(i)} ::
        && Used(i) == (if i == n then used else old(Used(i))) && File(i) == old(File(i))
        && OnExec(i) == (if i == n then cloexec else old(OnExec(i)))
    }

    /** The search at the top of __alloc_fd. */
    method Search(start: nat) returns (n: nat)
      requires Valid()
      ensures LeastUnused(start, n) && n >= nextFd
    {
      n := if start < nextFd then nextFd else start;
      if n < fdt.max {
        ghost var from := n;
        n := FindNextFd(fdt, n);
        assert forall i :: from <= i < n ==> fdt.open[..][i];
      }
    }

    /** The end of __alloc_fd: the descriptor is marked in use. */
    method Claim(n: nat, start: nat, cloexec: bool)
      requires Valid() && LeastUnused(start, n) && n < fdt.max && n >= nextFd
      modifies this`nextFd, fdt.open, fdt.full, fdt.cloexec
      ensures Valid() && fdt == old(fdt) && OnlyBits(n, true, cloexec)
      ensures nextFd == if start <= old(nextFd) then n + 1 else old(nextFd)
    {
      ghost var was := nextFd;
      if start <= nextFd { nextFd := n + 1; }
      fdt.SetOpenFd(n);
      fdt.cloexec[n] := cloexec;
      assert fdt.open[..] == old(fdt.open[..])[n := true];
      assert forall i :: 0 <= i < fdt.max ==> fdt.open[i] == fdt.open[..][i];
      forall i | 0 <= i < nextFd ensures fdt.open[i] {
        if was <= i < n { assert old(Used(i)); }
      }
    }

    /** __alloc_fd: the least unused descriptor, or a failure because it is too large or the table cannot grow to it */
    method AllocFd(start: nat, end: nat, cloexec: bool, nrOpen: nat, nrOpen2: nat, memory: bool)
      returns (r: Allocated, ghost least: nat)
      requires Valid() && nrOpen2 > 0
      modifies this, fdt.open, fdt.full, fdt.cloexec
      ensures Valid() && old(LeastUnused(start, least))
      ensures r.Fd? ==> r.n == least < end && OnlyBits(least, true, cloexec)
      ensures nextFd == if r.Fd? && start <= old(nextFd) then least + 1 else old(nextFd)
      ensures r.Failed? ==> SameView()
      ensures r == Failed(EMFILE) <==>
        least >= end || (least >= old(fdt.max) && (least >= nrOpen || (memory && TableSize(least, nrOpen2) <= least)))
      ensures r == Failed(ENOMEM) <==> !memory && least < end && old(fdt.max) <= least < nrOpen
      ensures r.Fd? || r == Failed(EMFILE) || r == Failed(ENOMEM)
    {
      hide TableSize, FullAgrees;
      var n;
      least := 0;
      while true
        invariant Valid() && SameView() && nextFd == old(nextFd)
        invariant fdt != old(fdt) ==> LeastUnused(start, least) && old(fdt.max) <= least < fdt.max && least < nrOpen && memory
        invariant fdt != old(fdt) ==> TableSize(least, nrOpen2) > least
        invariant fdt == old(fdt) || (fresh(fdt) && fresh(fdt.fd) && fresh(fdt.open) && fresh(fdt.cloexec) && fresh(fdt.full))
        invariant fdt.max >= old(fdt.max)
        decreases if end > fdt.max then end - fdt.max else 0
      {
        n := Search(start);
        assert fdt != old(fdt) ==> n == least;
        least := n;
        assert !Used(n);
        forall i: nat | start <= i < n ensures old(Used(i)) { assert Used(i); }
        if n >= end { return Failed(EMFILE), least; }
        var expanded, error := ExpandFiles(n, nrOpen, nrOpen2, memory);
        if error.Some? { return Failed(error.e), least; }
        if !expanded { break; }
      }
      Claim(n, start, cloexec);
      r := Fd(n);
    }

    /** Only the slot and the use of descriptor `n` have changed. */
    twostate predicate OnlySlot(n: nat, used: bool, file: int)
      requires old(fdt.Shape()) && fdt.Shape()
      reads this, fdt, fdt.open, fdt.fd, fdt.cloexec
    {
      forall i: nat {:trigger Used(i)} {:trigger File(i)} ::
        Used(i) == (if i == n then used else old(Used(i))) && File(i) == (if i == n then file else old(File(i)))
    }

    /** __close_fd */
    method CloseFd(n: nat) returns (ok: bool)
      requires Valid()
      modifies this`nextFd, fdt.fd, fdt.open, fdt.full
      ensures Valid() && fdt == old(fdt) && (ok <==> old(File(n)) != 0)
      ensures if ok then OnlySlot(n, false, 0) else SameView()
    {
      if n >= fdt.max { return false; }
      if fdt.fd[n] == 0 { return false; }
      fdt.fd[n] := 0;
      fdt.ClearOpenFd(n);
      if n < nextFd { nextFd := n; }
      assert forall i :: 0 <= i < fdt.max ==> fdt.open[i] == fdt.open[..][i];
      ok := true;
    }

    /** __fd_install, under the lock */
    method Install(n: nat, file: int)
      requires Valid() && Used(n) && File(n) == 0 && file != 0
      modifies fdt.fd
      ensures Valid() && OnlySlot(n, true, file)
    {
      fdt.fd[n] := file;
    }

    /** do_dup2: busy exactly when the descriptor is claimed but has no file yet */
    method DoDup2(n: nat, file: int, cloexec: bool) returns (ok: bool)
      requires Valid() && n < fdt.max && file != 0
      modifies fdt.fd, fdt.open, fdt.full, fdt.cloexec
      ensures Valid() && (ok <==> !(old(Used(n)) && old(File(n)) == 0))
      ensures if ok then OnlySlot(n, true, file) && OnExec(n) == cloexec else SameView()
    {
      if fdt.fd[n] == 0 && fdt.open[n] { return false; }
      fdt.fd[n] := file;
      fdt.SetOpenFd(n);
      fdt.cloexec[n] := cloexec;
      assert forall i :: 0 <= i < fdt.max ==> fdt.open[i] == fdt.open[..][i];
      ok := true;
    }

    /** dup3 */
    method Dup3(old_fd: nat, n: nat, cloexec: bool, limit: nat, nrOpen: nat, nrOpen2: nat, memory: bool) returns (r: Allocated)
      requires Valid() && nrOpen2 > 0 && old_fd != n
      modifies this`fdt, fdt.fd, fdt.open, fdt.full, fdt.cloexec
      ensures Valid()
      ensures r.Fd? ==> r.n == n < limit && old(File(old_fd)) != 0 && OnlySlot(n, true, old(File(old_fd))) && OnExec(n) == cloexec
      ensures r.Failed? ==> SameView()
      ensures r == Failed(EBADF) ==> n >= limit || old(File(old_fd)) == 0 || n >= nrOpen || n >= nrOpen2
      ensures r == Failed(EBUSY) ==> old(Used(n)) && old(File(n)) == 0
      ensures r == Failed(ENOMEM) ==> !memory
      ensures r.Fd? || r == Failed(EBADF) || r == Failed(EBUSY) || r == Failed(ENOMEM)
    {
      if n >= limit { return Failed(EBADF); }
      var expanded, error := ExpandFiles(n, nrOpen, nrOpen2, memory);
      assert SameView();
      assert File(old_fd) == old(File(old_fd)) && File(n) == old(File(n)) && Used(n) == old(Used(n));
      var file := if old_fd < fdt.max then fdt.fd[old_fd] else 0;
      if file == 0 { return Failed(EBADF); }
      if error.Some? { return Failed(if error.e == EMFILE then EBADF else error.e); }
      label L:
      var ok := DoDup2(n, file, cloexec);
      assert forall i: nat :: old@L(Used(i)) == old(Used(i)) && old@L(File(i)) == old(File(i));
      return if ok then Fd(n) else Failed(EBUSY);
    }
  }

  // ---------------------------------------------------------------- dup_fd

  /** count_open_files: whole words up to the last one with an open descriptor in it, at least one */
  method CountOpenFiles(fdt: Fdtable) returns (n: nat)
    requires fdt.Shape()
    ensures 0 < n <= fdt.max && n % BITS == 0 && forall i :: n <= i < fdt.max ==> !fdt.open[i]
    ensures n > BITS ==> exists i :: n - BITS <= i < n && fdt.open[i]
  {
    var i: int := fdt.max / BITS;
    var found := false;
    while i > 0 && !found
      invariant 0 <= i <= fdt.max / BITS && (found ==> i < fdt.max / BITS && exists k :: BITS * i <= k < BITS * i + BITS && fdt.open[k])
      invariant forall j :: (if found then i + 1 else i) * BITS <= j < fdt.max ==> !fdt.open[j]
      decreases if found then 0 else i + 1
    {
      i := i - 1;
      found := exists k :: BITS * i <= k < BITS * i + BITS && fdt.open[k];
    }
    n := (i + 1) * BITS;
  }

  lemma NothingPast(fdt: Fdtable, count: nat)
    requires fdt.Valid() && count % BITS == 0 && forall i :: count <= i < fdt.max ==> !fdt.open[i]
    ensures forall w {:trigger fdt.full[w]} :: count / BITS <= w < fdt.full.Length ==> !fdt.full[w]
  {
    forall w {:trigger fdt.full[w]} | count / BITS <= w < fdt.full.Length ensures !fdt.full[w] {
      assert fdt.full[..][w] <==> WordFull(fdt.open[..], w);
      assert BITS * w < fdt.max ==> !fdt.open[..][BITS * w];
    }
  }

  /** The loop of dup_fd: files are taken over, and descriptors without a file are freed. */
  method CopyFiles(n: Fdtable, fdt: Fdtable, count: nat)
    requires n.Shape() && fdt.Shape() && count <= n.max && count <= fdt.max
    requires n.fd != fdt.fd && {n.open, n.cloexec, n.full} !! {fdt.open, fdt.cloexec, fdt.full}
    requires FullAgrees(n.open[..], n.full[..])
    requires forall i :: 0 <= i < n.max ==> n.open[i] == (i < count && fdt.open[i])
    requires forall i :: 0 <= i < fdt.max && fdt.fd[i] != 0 ==> fdt.open[i]
    modifies n.fd, n.open, n.full
    ensures n.Valid()
    ensures forall i :: 0 <= i < n.max ==> n.fd[i] == (if i < count then fdt.fd[i] else 0) && n.open[i] == (n.fd[i] != 0)
  {
    for i := 0 to n.max
      invariant FullAgrees(n.open[..], n.full[..])
      invariant forall j :: 0 <= j < i ==> n.fd[j] == (if j < count then fdt.fd[j] else 0) && n.open[j] == (n.fd[j] != 0)
      invariant forall j :: i <= j < n.max ==> n.open[j] == (j < count && fdt.open[j])
    {
      n.fd[i] := if i < count then fdt.fd[i] else 0;
      if i < count && fdt.fd[i] == 0 {
        n.ClearOpenFd(i);
        assert forall j :: 0 <= j < n.max ==> n.open[j] == n.open[..][j];
      }
    }
  }

  lemma Apart(a: nat, b: nat)
    requires a % BITS == 0 && b % BITS == 0 && a < b
    ensures a <= b - BITS
  {
  }

  /** dup_fd: the copy has every descriptor that has a file, and no other */
  method DupFd(files: Files, nrOpen: nat, memory: bool) returns (r: Files?, error: Option)
    requires files.Valid() && nrOpen > 0
    ensures r != null <==> error.None?
    ensures r != null ==> fresh(r) && r.Valid() && r.nextFd == 0
    ensures r != null ==> forall i: nat {:trigger r.Used(i)} {:trigger r.File(i)} ::
      && (r.Used(i) <==> files.File(i) != 0) && r.File(i) == files.File(i)
      && (r.Used(i) ==> r.OnExec(i) == files.OnExec(i))
    ensures error == Some(ENOMEM) <==> !memory && exists i: nat :: i >= BITS && files.Used(i)
    ensures error == Some(EMFILE) ==> exists i: nat :: i >= nrOpen && files.Used(i)
    ensures error.None? || error == Some(EMFILE) || error == Some(ENOMEM)
  {
    hide FullAgrees, TableSize, RoundupPow2, FullBits;
    error := None;
    var fdt := files.fdt;
    var count := CountOpenFiles(fdt);
    var size := BITS;
    if count > size {
      ghost var last :| count - BITS <= last < count && fdt.open[last];
      assert files.Used(last);
      if !memory { return null, Some(ENOMEM); }
      size := TableSize(count - 1, nrOpen);
      TableSizeFits(count - 1, nrOpen);
      if size < count {
        Apart(size, count);
        ghost var i :| count - BITS <= i < count && fdt.open[i];
        assert files.Used(i);
        return null, Some(EMFILE);
      }
    }
    var n := new Fdtable(size);
    NothingPast(fdt, count);
    CopyBitmaps(n, fdt, count);
    assert forall i :: 0 <= i < size ==> n.open[i] == n.open[..][i] && n.cloexec[i] == n.cloexec[..][i];
    CopyFiles(n, fdt, count);
    r := new Files(n);
  }

  datatype Allocated = Fd(n: nat) | Failed(e: Error)

  datatype Option = None | Some(e: Error)
}
