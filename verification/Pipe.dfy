/** The pipe: a power-of-two ring of partly filled pages that behaves as a queue of bytes. */
module Pipe {
  import opened Bits

  const PAGE_SIZE: nat := 4096

  type Byte = int

  // ---------------------------------------------------------------- buffers

  datatype Buffer = Buffer(page: seq<Byte>, offset: nat, len: nat, merge: bool)

  ghost predicate Filled(b: Buffer) {
    |b.page| == PAGE_SIZE && 0 < b.len && b.offset + b.len <= PAGE_SIZE
  }

  function Data(b: Buffer): seq<Byte>
    requires b.offset + b.len <= |b.page|
  {
    b.page[b.offset..b.offset + b.len]
  }

  ghost predicate AllFilled(bs: seq<Buffer>) {
    forall i :: 0 <= i < |bs| ==> Filled(bs[i])
  }

  ghost function Flatten(bs: seq<Buffer>): seq<Byte>
    requires AllFilled(bs)
  {
    if bs == [] then [] else assert Filled(bs[0]); Data(bs[0]) + Flatten(bs[1..])
  }

  lemma {:induction false} FlattenAppend(a: seq<Buffer>, b: seq<Buffer>)
    requires AllFilled(a) && AllFilled(b)
    ensures AllFilled(a + b) && Flatten(a + b) == Flatten(a) + Flatten(b)
  {
    if a == [] {
      assert a + b == b;
    } else {
      FlattenAppend(a[1..], b);
      assert (a + b)[1..] == a[1..] + b;
    }
  }

  lemma FlattenOne(b: Buffer)
    requires Filled(b)
    ensures AllFilled([b]) && Flatten([b]) == Data(b)
  {
    assert Flatten([b][1..]) == [];
  }

  lemma FlattenLast(bs: seq<Buffer>, b: Buffer)
    requires AllFilled(bs) && Filled(b)
    ensures AllFilled(bs + [b]) && Flatten(bs + [b]) == Flatten(bs) + Data(b)
  {
    FlattenOne(b);
    FlattenAppend(bs, [b]);
  }

  // ---------------------------------------------------------------- the ring

  function Wrap(x: nat, n: nat): (r: nat)
    requires x < 2 * n
    ensures r < n
  {
    if x < n then x else x - n
  }

  lemma MaskWraps(x: nat, n: nat)
    requires IsPow2(n) && x < 2 * n
    ensures And(x, n - 1) == Wrap(x, n)
  {
    MaskIsRemainder(x, n);
    if x < n { Remainder(x, 0, n, x); } else { Remainder(x, 1, n, x - n); }
  }

  /** `nr` buffers starting at `cur`. */
  ghost function Ring(bufs: seq<Buffer>, cur: nat, nr: nat): (r: seq<Buffer>)
    requires cur < |bufs| && nr <= |bufs|
    ensures |r| == nr && forall i :: 0 <= i < nr ==> r[i] == bufs[Wrap(cur + i, |bufs|)]
  {
    seq(nr, i requires 0 <= i < nr => bufs[Wrap(cur + i, |bufs|)])
  }

  lemma RingDrop(bufs: seq<Buffer>, cur: nat, nr: nat)
    requires cur < |bufs| && 0 < nr <= |bufs|
    ensures Ring(bufs, Wrap(cur + 1, |bufs|), nr - 1) == Ring(bufs, cur, nr)[1..]
  {
  }

  lemma RingPush(bufs: seq<Buffer>, cur: nat, nr: nat, b: Buffer)
    requires cur < |bufs| && nr < |bufs|
    ensures Ring(bufs[Wrap(cur + nr, |bufs|) := b], cur, nr + 1) == Ring(bufs, cur, nr) + [b]
  {
  }

  lemma RingSet(bufs: seq<Buffer>, cur: nat, nr: nat, i: nat, b: Buffer)
    requires cur < |bufs| && i < nr <= |bufs|
    ensures Ring(bufs[Wrap(cur + i, |bufs|) := b], cur, nr) == Ring(bufs, cur, nr)[i := b]
  {
  }

  datatype Refusal = Fine | Fault | Again | Broken | NoMemory | Busy | Invalid | Denied

  /** pipe_max_size, the two limits on the pages of a user, 0 for none, and CAP_SYS_RESOURCE and CAP_SYS_ADMIN */
  datatype Limits = Limits(maxSize: nat, soft: nat, hard: nat, resource: bool, admin: bool)

  /** A larger pipe is too large for anyone without the capability, or the user has too many pages with it. */
  ghost predicate OverLimit(l: Limits, size: nat, userBufs: int) {
    !l.resource && (size > l.maxSize || (!l.admin && (0 < l.hard <= userBufs || 0 < l.soft <= userBufs)))
  }

  /** The bytes for which the page of the last buffer has room, 0 if nothing may be merged into it. */
  ghost function RoomIn(bufs: seq<Buffer>, cur: nat, nr: nat): (r: int)
    requires cur < |bufs| && nr <= |bufs|
    ensures nr == 0 ==> r == 0
  {
    if nr == 0 then 0
    else
      var b := bufs[Wrap(cur + nr - 1, |bufs|)];
      if b.merge then PAGE_SIZE - b.offset - b.len else 0
  }

  lemma PagesLeft(pages: nat, left: nat)
    requires 0 < left <= pages
    ensures (pages - left) * PAGE_SIZE + PAGE_SIZE == (pages - (left - 1)) * PAGE_SIZE <= pages * PAGE_SIZE
  {
  }

  lemma PagesUsed(pages: nat, left: nat)
    requires left <= pages
    ensures (pages - left) * PAGE_SIZE <= pages * PAGE_SIZE && (left == 0 ==> (pages - left) * PAGE_SIZE == pages * PAGE_SIZE)
  {
  }

  lemma Slices(data: seq<Byte>, i: nat, j: nat, k: nat)
    requires i <= j <= k <= |data|
    ensures data[i..j] + data[j..k] == data[i..k]
  {
  }

  /** memcpy of `n` buffers */
  method CopyBuffers(dst: array<Buffer>, at: nat, src: array<Buffer>, from: nat, n: nat)
    requires dst != src && at + n <= dst.Length && from + n <= src.Length
    modifies dst
    ensures forall j {:trigger dst[j]} :: 0 <= j < dst.Length ==>
      dst[j] == if at <= j < at + n then src[from + (j - at)] else old(dst[j])
  {
    for i := 0 to n
      invariant forall j {:trigger dst[j]} :: 0 <= j < dst.Length ==>
        dst[j] == if at <= j < at + i then src[from + (j - at)] else old(dst[j])
    {
      dst[at + i] := src[from + i];
    }
  }

  class Pipe {
    var bufs: array<Buffer>
    var curbuf: nat
    var nrbufs: nat
    var readers: bool             // any reader left
    var userBufs: int             // user->pipe_bufs
    ghost var accepted: seq<Byte>   // everything writes have put in
    ghost var delivered: seq<Byte>  // everything reads have taken out

    ghost predicate Shape()
      reads this, bufs
    {
      IsPow2(bufs.Length) && curbuf < bufs.Length && nrbufs <= bufs.Length
    }

    ghost function Live(): seq<Buffer>
      requires Shape()
      reads this, bufs
    {
      Ring(bufs[..], curbuf, nrbufs)
    }

    ghost predicate Sound()
      reads this, bufs
    {
      Shape() && AllFilled(Live())
    }

    /** The bytes in the pipe, in order. */
    ghost function Contents(): seq<Byte>
      requires Sound()
      reads this, bufs
    {
      Flatten(Live())
    }

    /** What has come in is what has gone out and what is still inside. */
    ghost predicate Valid()
      reads this, bufs
    {
      Sound() && accepted == delivered + Contents()
    }

    constructor (buffers: nat, userBufs: int)
      requires IsPow2(buffers)
      ensures Valid() && fresh(bufs) && bufs.Length == buffers && Contents() == [] && readers && this.userBufs == userBufs + buffers
    {
      bufs := new Buffer[buffers](_ => Buffer([], 0, 0, false));
      curbuf, nrbufs, readers, this.userBufs := 0, 0, true, userBufs + buffers;
      accepted, delivered := [], [];
    }

    /** One buffer of pipe_read: `chars` bytes are taken from the first one. */
    method TakeFrom(chars: nat) returns (data: seq<Byte>)
      requires Sound() && nrbufs > 0 && 0 < chars <= bufs[curbuf].len
      modifies this`curbuf, this`nrbufs, bufs
      ensures Sound() && |data| == chars <= |old(Contents())|
      ensures data == old(Contents())[..chars] && Contents() == old(Contents())[chars..]
    {
      hide AllFilled, Flatten, Ring, IsPow2, And;
      TakeKeeps(bufs[..], curbuf, nrbufs, chars);
      var buf := bufs[curbuf];
      data := buf.page[buf.offset..buf.offset + chars];
      buf := buf.(offset := buf.offset + chars, len := buf.len - chars);
      bufs[curbuf] := buf;
      assert bufs[..] == old(bufs[..])[curbuf := buf];
      if buf.len == 0 {
        MaskWraps(curbuf + 1, bufs.Length);
        curbuf := And(curbuf + 1, bufs.Length - 1);
        nrbufs := nrbufs - 1;
      }
    }

    /** pipe_read under the lock: `room` bytes of the user's memory can be written before a fault */
    method Read(total: nat, room: nat) returns (data: seq<Byte>, r: Refusal)
      requires Valid()
      modifies this`curbuf, this`nrbufs, this`delivered, bufs
      ensures Valid() && delivered == old(delivered) + data && accepted == old(accepted)
      ensures |data| <= total && |data| <= |old(Contents())| && data == old(Contents())[..|data|] && Contents() == old(Contents())[|data|..]
      ensures r == Fine ==> |data| == if total <= |old(Contents())| then total else |old(Contents())|
      ensures r == Fault ==> |data| <= room < total
      ensures r == Fine || r == Fault
    {
      hide AllFilled, Flatten, Ring, IsPow2, And;
      data, r := [], Fine;
      ghost var all := Contents();
      while nrbufs > 0 && |data| < total
        invariant Sound() && accepted == old(accepted) && delivered == old(delivered) && bufs == old(bufs) && |data| <= room
        invariant |data| <= total && |data| <= |all| && data == all[..|data|] && Contents() == all[|data|..]
        decreases total - |data|
      {
        FirstFilled(bufs[..], curbuf, nrbufs);
        var chars := if bufs[curbuf].len > total - |data| then total - |data| else bufs[curbuf].len;
        if |data| + chars > room {
          r := Fault;
          break;
        }
        ghost var before := |data|;
        var piece := TakeFrom(chars);
        assert all[before..][..chars] == all[before..before + chars] && all[before..][chars..] == all[before + chars..];
        data := data + piece;
      }
      if nrbufs == 0 { EmptyRing(bufs[..], curbuf); }
      delivered := delivered + data;
      assert all == data + Contents();
    }

    /** A new last buffer. */
    method Insert(data: seq<Byte>)
      requires Sound() && nrbufs < bufs.Length && 0 < |data| <= PAGE_SIZE
      modifies this`nrbufs, bufs
      ensures Sound() && Contents() == old(Contents()) + data && nrbufs == old(nrbufs) + 1
      ensures Room() == PAGE_SIZE - |data|
    {
      hide AllFilled, Flatten, Ring, IsPow2, And;
      MaskWraps(curbuf + nrbufs, bufs.Length);
      var newbuf := And(curbuf + nrbufs, bufs.Length - 1);
      var b := Buffer(data + Blank(PAGE_SIZE - |data|), 0, |data|, true);
      assert Data(b) == data;
      RingPush(bufs[..], curbuf, nrbufs, b);
      FlattenLast(Live(), b);
      bufs[newbuf] := b;
      assert bufs[..] == old(bufs[..])[newbuf := b];
      nrbufs := nrbufs + 1;
    }

    ghost function Room(): int
      requires Shape()
      reads this, bufs
    {
      RoomIn(bufs[..], curbuf, nrbufs)
    }

    /** The merge at the top of pipe_write: the data goes behind what the last buffer holds, if it fits its page */
    method Merge(data: seq<Byte>, readable: bool) returns (merged: bool, r: Refusal)
      requires Sound() && nrbufs > 0 && data != []
      modifies bufs
      ensures Sound() && (r == Fault <==> !readable && |data| <= old(Room())) && (r == Fine || r == Fault)
      ensures Contents() == old(Contents()) + if merged then data else []
      ensures merged <==> readable && |data| <= old(Room())
      ensures Room() == old(Room()) - if merged then |data| else 0
    {
      hide AllFilled, Flatten, Ring, IsPow2, And;
      MaskWraps(curbuf + nrbufs - 1, bufs.Length);
      var lastbuf := And(curbuf + nrbufs - 1, bufs.Length - 1);
      LastFilled(bufs[..], curbuf, nrbufs);
      var b := bufs[lastbuf];
      var offset := b.offset + b.len;
      merged, r := false, Fine;
      if b.merge && offset + |data| <= PAGE_SIZE {
        if !readable { return false, Fault; }
        var b' := b.(page := b.page[..offset] + data + b.page[offset + |data|..], len := b.len + |data|);
        MergeKeeps(bufs[..], curbuf, nrbufs, b', data);
        bufs[lastbuf] := b';
        assert bufs[..] == old(bufs[..])[lastbuf := b'];
        merged := true;
      }
    }

    /** The loop of pipe_write: page after page from place `n` on */
    method Fill(data: seq<Byte>, from: nat, readable: nat, pages: nat) returns (n: nat, r: Refusal)
      requires Sound() && from <= |data|
      modifies this`nrbufs, bufs
      ensures Sound() && from <= n <= |data| && Contents() == old(Contents()) + data[from..n]
      ensures |data| - from <= PAGE_SIZE ==> n == from || n == |data|
      ensures r == Fine <==> n == |data|
      ensures r == Fault ==> readable < |data| && readable < n + PAGE_SIZE && nrbufs < bufs.Length && n - from < pages * PAGE_SIZE
      ensures r == Again ==> nrbufs == bufs.Length
      ensures r == NoMemory ==> n - from == pages * PAGE_SIZE && nrbufs < bufs.Length
      ensures n > from ==> n <= readable && n - from <= pages * PAGE_SIZE
      ensures from == |data| ==> nrbufs == old(nrbufs) && bufs[..] == old(bufs[..])
      ensures r == Fine && 0 < |data| - from <= PAGE_SIZE ==> Room() == PAGE_SIZE - (|data| - from)
      ensures r == Fine || r == Fault || r == Again || r == NoMemory
    {
      hide AllFilled, Flatten, Ring, IsPow2, And;
      n, r := from, Fine;
      var left: nat := pages;
      while n < |data|
        invariant from <= n <= |data| && Sound() && Contents() == old(Contents()) + data[from..n] && r == Fine
        invariant |data| - from <= PAGE_SIZE ==> n == from || n == |data|
        invariant left <= pages && (n < |data| ==> n - from == (pages - left) * PAGE_SIZE)
        invariant n > from ==> n <= readable && n - from <= (pages - left) * PAGE_SIZE
        invariant n == from ==> nrbufs == old(nrbufs) && bufs[..] == old(bufs[..])
        invariant n == |data| && 0 < |data| - from <= PAGE_SIZE ==> Room() == PAGE_SIZE - (|data| - from)
        decreases |data| - n
      {
        if nrbufs == bufs.Length { r := Again; break; }
        if left == 0 { r := NoMemory; break; }
        var copied := if |data| - n > PAGE_SIZE then PAGE_SIZE else |data| - n;
        PagesLeft(pages, left);
        if n + copied > readable { r := Fault; break; }
        left := left - 1;
        Insert(data[n..n + copied]);
        Slices(data, from, n, n + copied);
        n := n + copied;
      }
      PagesUsed(pages, left);
    }

    /** The end of the data that does not fill a page is tried on the last buffer first. */
    method MergeEnd(data: seq<Byte>, first: bool, readable: nat) returns (n: nat, r: Refusal)
      requires Sound() && data != []
      modifies bufs
      ensures Sound() && n <= |data| && Contents() == old(Contents()) + data[..n]
      ensures r == Fault ==> n == 0 && readable < |data|
      ensures r == Fine || r == Fault
      ensures |data| <= PAGE_SIZE ==> n == 0 || n == |data|
      ensures |data| < PAGE_SIZE && r == Fine ==> (n == |data| <==> first && |data| <= old(Room()))
      ensures |data| < PAGE_SIZE && |data| <= readable ==> r == Fine
      ensures |data| < PAGE_SIZE && n == |data| ==> Room() == old(Room()) - |data|
      ensures n <= readable
    {
      hide AllFilled, Flatten, Ring, IsPow2, And, RoomIn;
      n, r := 0, Fine;
      LastPart(|data|);
      var chars := And(|data|, PAGE_SIZE - 1);
      if first && nrbufs > 0 && chars != 0 {
        var merged;
        merged, r := Merge(data[..chars], chars <= readable);
        if merged { n := chars; }
      }
    }

    /**
     pipe_write under the lock, until it has to wait: `first` before the first wait, `readable` bytes of the user's
     memory can be read before a fault, `pages` pages can be allocated. The first `n` bytes have gone in.
     */
    method Write(data: seq<Byte>, first: bool, readable: nat, pages: nat) returns (n: nat, r: Refusal)
      requires Valid() && data != []
      modifies this`nrbufs, this`accepted, bufs
      ensures Valid() && n <= |data| && accepted == old(accepted) + data[..n] && delivered == old(delivered)
      ensures Contents() == old(Contents()) + data[..n]
      ensures |data| <= PAGE_SIZE ==> n == 0 || n == |data|
      ensures r == Fine <==> n == |data|
      ensures r == Fault ==> readable < |data|
      ensures r == Again ==> nrbufs == bufs.Length
      ensures r == NoMemory ==> pages * PAGE_SIZE < |data| && nrbufs < bufs.Length
      ensures n <= readable
      ensures r == Fine && |data| < PAGE_SIZE && !(first && |data| <= old(Room())) ==> pages > 0
      ensures r == Broken <==> !readers
      ensures readers && first && |data| < PAGE_SIZE && |data| <= readable && |data| <= old(Room()) ==> r == Fine && nrbufs == old(nrbufs)
      ensures readers && first && |data| < PAGE_SIZE && readable < |data| <= old(Room()) ==> r == Fault && n == 0
      ensures r == Fine && |data| < PAGE_SIZE ==>
        Room() == (if first && |data| <= old(Room()) then old(Room()) else PAGE_SIZE) - |data|
      ensures r == Fine || r == Fault || r == Again || r == Broken || r == NoMemory
    {
      hide AllFilled, Flatten, Ring, IsPow2, And, RoomIn;
      n, r := 0, Fine;
      if !readers { return 0, Broken; }
      ghost var before := Contents();
      n, r := MergeEnd(data, first, readable);
      if r == Fault { return; }
      ghost var from := n;
      n, r := Fill(data, n, readable, pages);
      Joined(before, data, from, n);
      accepted := accepted + data[..n];
      Arrived(old(accepted), delivered, before, data[..n]);
    }

    /** pipe_set_size: the buffers move to a new array, in order, or nothing changes */
    method SetSize(arg: nat, l: Limits, memory: bool) returns (r: Refusal)
      requires Valid()
      modifies this`bufs, this`curbuf, this`userBufs
      ensures Valid() && nrbufs == old(nrbufs) && Contents() == old(Contents())
      ensures r == Fine ==> fresh(bufs) && bufs.Length == RoundPipeSize(arg) / PAGE_SIZE
      ensures r != Fine ==> bufs == old(bufs) && curbuf == old(curbuf)
      ensures userBufs - bufs.Length == old(userBufs - bufs.Length)
      ensures r == Invalid <==> RoundPipeSize(arg) == 0
      ensures r == Busy ==> RoundPipeSize(arg) / PAGE_SIZE < nrbufs
      ensures r == Denied <==>
        && RoundPipeSize(arg) != 0 && RoundPipeSize(arg) / PAGE_SIZE > old(bufs.Length)
        && OverLimit(l, RoundPipeSize(arg), old(userBufs - bufs.Length) + RoundPipeSize(arg) / PAGE_SIZE)
      ensures r == NoMemory ==> !memory
      ensures r == Fine || r == Invalid || r == Busy || r == Denied || r == NoMemory
    {
      hide AllFilled, Flatten, Ring, IsPow2, And, RoundPipeSize;
      var size := RoundPipeSize(arg);
      RoundPipeSizeExact(arg);
      if size == 0 { return Invalid; }
      var pages := size / PAGE_SIZE;
      if pages > bufs.Length && size > l.maxSize && !l.resource { return Denied; }
      var before := userBufs;
      userBufs := userBufs + pages - bufs.Length;
      var many := (l.hard != 0 && userBufs >= l.hard) || (l.soft != 0 && userBufs >= l.soft);
      if pages > bufs.Length && many && !l.resource && !l.admin {
        r := Denied;
      } else {
        r := if pages < nrbufs then Busy else if !memory then NoMemory else Fine;
      }
      if r != Fine {
        userBufs := before;
        return;
      }
      var moved := Relocate(pages);
      curbuf := 0;
      bufs := moved;
    }

    /** The copy in pipe_set_size: the part up to the end of the array, then the part from its beginning */
    method Relocate(pages: nat) returns (moved: array<Buffer>)
      requires Shape() && nrbufs <= pages && pages > 0
      ensures fresh(moved) && moved.Length == pages && Ring(moved[..], 0, nrbufs) == Live()
    {
      hide IsPow2, And, Ring;
      moved := new Buffer[pages](_ => Buffer([], 0, 0, false));
      var tail := curbuf + nrbufs;
      MaskWraps(tail, bufs.Length);
      tail := if tail < bufs.Length then 0 else And(tail, bufs.Length - 1);
      var head := nrbufs - tail;
      CopyBuffers(moved, 0, bufs, curbuf, head);
      CopyBuffers(moved, head, bufs, 0, tail);
      assert forall j :: 0 <= j < head ==> moved[..][j] == bufs[..][curbuf + j];
      assert forall j :: 0 <= j < tail ==> moved[..][head + j] == bufs[..][j];
      SameRing(bufs[..], curbuf, nrbufs, moved[..], head);
    }
  }

  const TWO32: nat := 0x1_0000_0000

  /** round_pipe_size, with the argument and the result cut to 32 bits */
  function RoundPipeSize(arg: nat): (r: nat) {
    var size := arg % TWO32;
    var size' := if size < PAGE_SIZE then PAGE_SIZE else size;
    var pages := (size' + PAGE_SIZE - 1) / PAGE_SIZE;
    (RoundupPow2(pages) * PAGE_SIZE) % TWO32
  }

  /** A power of two of pages that holds what was asked for, or zero exactly when more than two gigabytes were. */
  lemma RoundPipeSizeExact(arg: nat)
    ensures RoundPipeSize(arg) == 0 <==> arg % TWO32 > 0x8000_0000
    ensures RoundPipeSize(arg) != 0 ==> RoundPipeSize(arg) % PAGE_SIZE == 0 && IsPow2(RoundPipeSize(arg) / PAGE_SIZE)
    ensures RoundPipeSize(arg) != 0 ==> RoundPipeSize(arg) >= arg % TWO32
  {
    hide IsPow2, RoundupPow2;
    var size := if arg % TWO32 < PAGE_SIZE then PAGE_SIZE else arg % TWO32;
    var pages := (size + PAGE_SIZE - 1) / PAGE_SIZE;
    var p := RoundupPow2(pages);
    RoundedPages(pages, p);
    assert p * PAGE_SIZE >= pages * PAGE_SIZE >= size;
  }

  lemma RoundedPages(pages: nat, p: nat)
    requires 0 < pages <= 0x10_0000 && IsPow2(p) && pages <= p < 2 * pages
    ensures if pages > 0x8_0000 then p == 0x10_0000 else p <= 0x8_0000
  {
    hide IsPow2;
    PagesArePow2();
    if p > 0x8_0000 { Pow2Gap(0x8_0000, p); }
    if p > 0x10_0000 { Pow2Gap(0x10_0000, p); }
  }

  lemma SameRing(b: seq<Buffer>, cur: nat, nr: nat, moved: seq<Buffer>, head: nat)
    requires cur < |b| && nr <= |b| && moved != [] && nr <= |moved|
    requires head == if cur + nr < |b| then nr else |b| - cur
    requires (forall j :: 0 <= j < head ==> moved[j] == b[cur + j]) && forall j :: 0 <= j < nr - head ==> moved[head + j] == b[j]
    ensures Ring(moved, 0, nr) == Ring(b, cur, nr)
  {
    hide Ring;
    forall j | 0 <= j < nr ensures Ring(moved, 0, nr)[j] == Ring(b, cur, nr)[j] {
      if j >= head { assert moved[head + (j - head)] == b[j - head]; }
    }
  }

  lemma PageIsPow2()
    ensures IsPow2(PAGE_SIZE)
  {
    hide IsPow2;
    OneIsPow2();
    Doubled(1); Doubled(2); Doubled(4); Doubled(8); Doubled(16); Doubled(32);
    Doubled(64); Doubled(128); Doubled(256); Doubled(512); Doubled(1024); Doubled(2048);
  }

  lemma PagesArePow2()
    ensures IsPow2(0x8_0000) && IsPow2(0x10_0000)
  {
    hide IsPow2;
    PageIsPow2();
    Doubled(4096); Doubled(8192); Doubled(0x4000); Doubled(0x8000);
    Doubled(0x1_0000); Doubled(0x2_0000); Doubled(0x4_0000); Doubled(0x8_0000);
  }

  lemma Joined(before: seq<Byte>, data: seq<Byte>, from: nat, n: nat)
    requires from <= n <= |data|
    ensures before + data[..from] + data[from..n] == before + data[..n]
  {
  }

  lemma Arrived(accepted: seq<Byte>, delivered: seq<Byte>, before: seq<Byte>, more: seq<Byte>)
    requires accepted == delivered + before
    ensures accepted + more == delivered + (before + more)
  {
  }

  /** The part of a write that does not fill a page: all of a write shorter than a page. */
  lemma LastPart(total: nat)
    ensures And(total, PAGE_SIZE - 1) <= total
    ensures total < PAGE_SIZE ==> And(total, PAGE_SIZE - 1) == total
    ensures total == PAGE_SIZE ==> And(total, PAGE_SIZE - 1) == 0
  {
    PageIsPow2();
    hide IsPow2, And;
    MaskIsRemainder(total, PAGE_SIZE);
  }

  function Blank(n: nat): (r: seq<Byte>)
    ensures |r| == n
  {
    seq(n, _ => 0)
  }

  lemma FirstFilled(b: seq<Buffer>, cur: nat, nr: nat)
    requires cur < |b| && 0 < nr <= |b| && AllFilled(Ring(b, cur, nr))
    ensures Filled(b[cur])
  {
    assert Ring(b, cur, nr)[0] == b[cur];
  }

  lemma EmptyRing(b: seq<Buffer>, cur: nat)
    requires cur < |b|
    ensures AllFilled(Ring(b, cur, 0)) && Flatten(Ring(b, cur, 0)) == []
  {
  }

  lemma LastFilled(b: seq<Buffer>, cur: nat, nr: nat)
    requires cur < |b| && 0 < nr <= |b| && AllFilled(Ring(b, cur, nr))
    ensures Filled(b[Wrap(cur + nr - 1, |b|)])
  {
    assert Ring(b, cur, nr)[nr - 1] == b[Wrap(cur + nr - 1, |b|)];
  }

  lemma MergeKeeps(b: seq<Buffer>, cur: nat, nr: nat, b': Buffer, data: seq<Byte>)
    requires cur < |b| && 0 < nr <= |b| && AllFilled(Ring(b, cur, nr))
    requires var last := b[Wrap(cur + nr - 1, |b|)];
      && Filled(last) && Filled(b') && b'.offset == last.offset && b'.len == last.len + |data|
      && b'.page[..last.offset + last.len] == last.page[..last.offset + last.len]
      && b'.page[last.offset + last.len..last.offset + last.len + |data|] == data
    ensures var after := Ring(b[Wrap(cur + nr - 1, |b|) := b'], cur, nr);
      AllFilled(after) && Flatten(after) == Flatten(Ring(b, cur, nr)) + data
  {
    hide AllFilled, Flatten, Ring;
    var live, last := Ring(b, cur, nr), b[Wrap(cur + nr - 1, |b|)];
    RingSet(b, cur, nr, nr - 1, b');
    var front := live[..nr - 1];
    assert live == front + [last] && live[nr - 1 := b'] == front + [b'];
    FrontFilled(live);
    FlattenLast(front, last);
    FlattenLast(front, b');
    assert Data(b') == Data(last) + data by {
      var at := last.offset + last.len;
      assert b'.page[last.offset..at] == b'.page[..at][last.offset..];
      assert last.page[last.offset..at] == last.page[..at][last.offset..];
      assert Data(b') == b'.page[last.offset..at] + b'.page[at..at + |data|];
    }
  }

  lemma FrontFilled(bs: seq<Buffer>)
    requires AllFilled(bs) && bs != []
    ensures AllFilled(bs[..|bs| - 1])
  {
  }

  lemma FlattenStep(bs: seq<Buffer>)
    requires AllFilled(bs) && bs != []
    ensures AllFilled(bs[1..]) && Filled(bs[0]) && Flatten(bs) == Data(bs[0]) + Flatten(bs[1..])
  {
  }

  lemma FlattenFirst(bs: seq<Buffer>, rest: Buffer, chars: nat)
    requires AllFilled(bs) && bs != [] && Filled(bs[0]) && 0 < chars < bs[0].len
    requires rest == bs[0].(offset := bs[0].offset + chars, len := bs[0].len - chars)
    ensures AllFilled(bs[0 := rest]) && Flatten(bs[0 := rest]) == Data(rest) + Flatten(bs[1..])
  {
    assert bs[0 := rest][1..] == bs[1..];
    FlattenStep(bs[0 := rest]);
  }

  lemma TakeKeeps(b: seq<Buffer>, cur: nat, nr: nat, chars: nat)
    requires cur < |b| && 0 < nr <= |b| && AllFilled(Ring(b, cur, nr)) && 0 < chars <= b[cur].len
    ensures Filled(b[cur]) && chars <= |Flatten(Ring(b, cur, nr))|
    ensures Flatten(Ring(b, cur, nr))[..chars] == b[cur].page[b[cur].offset..b[cur].offset + chars]
    ensures var rest := b[cur].(offset := b[cur].offset + chars, len := b[cur].len - chars);
      var after := if rest.len == 0 then Ring(b[cur := rest], Wrap(cur + 1, |b|), nr - 1) else Ring(b[cur := rest], cur, nr);
      AllFilled(after) && Flatten(after) == Flatten(Ring(b, cur, nr))[chars..]
  {
    hide AllFilled, Flatten, Ring;
    var live := Ring(b, cur, nr);
    FlattenStep(live);
    var rest := b[cur].(offset := b[cur].offset + chars, len := b[cur].len - chars);
    RingSet(b, cur, nr, 0, rest);
    if rest.len == 0 {
      RingDrop(b[cur := rest], cur, nr);
      assert live[0 := rest][1..] == live[1..];
    } else {
      FlattenFirst(live, rest, chars);
      assert Data(live[0])[chars..] == Data(rest);
    }
  }
}
