/** The core file: a first pass computes where everything will be, a second pass writes it there. */
module CoreFile {
  import opened CoreNotes

  const PAGE_SIZE: nat := 4096
  const EHDR: nat := 64   // sizeof(struct elfhdr)
  const PHDR: nat := 56   // sizeof(struct elf_phdr)
  const SHDR: nat := 64   // sizeof(struct elf_shdr)
  const PN_XNUM: nat := 0xffff

  /** roundup(x, ELF_EXEC_PAGESIZE) */
  function RoundPage(x: nat): (r: nat)
    ensures x <= r < x + PAGE_SIZE && r % PAGE_SIZE == 0
  {
    ((x + PAGE_SIZE - 1) / PAGE_SIZE) * PAGE_SIZE
  }

  // ---------------------------------------------------------------- segments

  ghost function Total(sizes: seq<nat>): (r: nat) {
    if sizes == [] then 0 else sizes[0] + Total(sizes[1..])
  }

  lemma {:induction false} TotalAppend(a: seq<nat>, b: seq<nat>)
    ensures Total(a + b) == Total(a) + Total(b)
  {
    if a == [] {
      assert a + b == b;
    } else {
      TotalAppend(a[1..], b);
      assert (a + b)[1..] == a[1..] + b;
    }
  }

  lemma TotalStep(sizes: seq<nat>, i: nat)
    requires i < |sizes|
    ensures Total(sizes[..i + 1]) == Total(sizes[..i]) + sizes[i]
  {
    assert sizes[..i + 1] == sizes[..i] + [sizes[i]];
    TotalAppend(sizes[..i], [sizes[i]]);
    assert Total([sizes[i]]) == sizes[i] + Total([]);
  }

  /** The phdrs, each with the offset that the sizes before it add up to. */
  method WriteProgramHeaders(d: Dump, sizes: seq<nat>, dataoff: nat)
    modifies d
    ensures d.pos == old(d.pos) + PHDR * |sizes| && |d.out| == |old(d.out)| + |sizes| && old(d.out) <= d.out
    ensures forall i :: 0 <= i < |sizes| ==>
      d.out[|old(d.out)| + i] == Placed(old(d.pos) + PHDR * i, PHDR, Program(Phdr(dataoff + Total(sizes[..i]), sizes[i])))
  {
    var offset := dataoff;
    for i := 0 to |sizes|
      invariant d.pos == old(d.pos) + PHDR * i && |d.out| == |old(d.out)| + i && old(d.out) <= d.out &&
        offset == dataoff + Total(sizes[..i])
      invariant forall j :: 0 <= j < i ==>
        d.out[|old(d.out)| + j] == Placed(old(d.pos) + PHDR * j, PHDR, Program(Phdr(dataoff + Total(sizes[..j]), sizes[j])))
    {
      d.Emit(PHDR, Program(Phdr(offset, sizes[i])));
      TotalStep(sizes, i);
      offset := offset + sizes[i];
    }
  }

  /** The pages of one segment; a page that is not there leaves a hole. */
  method WriteSegment(d: Dump, vma: nat, size: nat)
    requires size % PAGE_SIZE == 0
    modifies d
    ensures d.pos == old(d.pos) + size && old(d.out) <= d.out
    ensures |d.out| == |old(d.out)| + size / PAGE_SIZE
    ensures forall k :: 0 <= k < size / PAGE_SIZE ==> d.out[|old(d.out)| + k] == Placed(old(d.pos) + PAGE_SIZE * k, PAGE_SIZE, Page(vma))
  {
    var addr := 0;
    ghost var n := 0;
    while addr < size
      invariant addr == PAGE_SIZE * n && addr <= size && d.pos == old(d.pos) + addr && old(d.out) <= d.out && |d.out| == |old(d.out)| + n
      invariant forall k :: 0 <= k < n ==> d.out[|old(d.out)| + k] == Placed(old(d.pos) + PAGE_SIZE * k, PAGE_SIZE, Page(vma))
    {
      d.Emit(PAGE_SIZE, Page(vma));
      addr := addr + PAGE_SIZE;
      n := n + 1;
    }
  }

  /** The data of all segments: segment `i` starts where the sizes before it add up to. */
  method WriteSegments(d: Dump, sizes: seq<nat>) returns (ghost starts: seq<nat>)
    requires forall i :: 0 <= i < |sizes| ==> sizes[i] % PAGE_SIZE == 0
    modifies d
    ensures d.pos == old(d.pos) + Total(sizes) && old(d.out) <= d.out && |starts| == |sizes|
    ensures forall i :: 0 <= i < |sizes| ==> starts[i] == old(d.pos) + Total(sizes[..i])
    ensures forall i, k {:trigger Held(d.out, starts, i, k)} :: 0 <= i < |sizes| && 0 <= k < sizes[i] / PAGE_SIZE ==>
      Held(d.out, starts, i, k)
  {
    starts := [];
    for i := 0 to |sizes|
      invariant d.pos == old(d.pos) + Total(sizes[..i]) && old(d.out) <= d.out && |starts| == i
      invariant forall j :: 0 <= j < i ==> starts[j] == old(d.pos) + Total(sizes[..j])
      invariant forall j, k {:trigger Held(d.out, starts, j, k)} :: 0 <= j < i && 0 <= k < sizes[j] / PAGE_SIZE ==>
        Held(d.out, starts, j, k)
    {
      ghost var before, was := d.out, starts;
      starts := starts + [d.pos];
      WriteSegment(d, i, sizes[i]);
      TotalStep(sizes, i);
      forall j, k {:trigger Held(d.out, starts, j, k)} | 0 <= j < i + 1 && 0 <= k < sizes[j] / PAGE_SIZE ensures Held(d.out, starts, j, k) {
        if j < i { StillHeld(before, d.out, was, starts, j, k); } else { assert d.out[|before| + k] in d.out; }
      }
    }
    assert sizes[..|sizes|] == sizes;
  }

  /** Page `k` of segment `i` is in the file, where the start of the segment says. */
  ghost predicate Held(out: seq<Placed>, starts: seq<nat>, i: nat, k: nat) {
    i < |starts| && Placed(starts[i] + PAGE_SIZE * k, PAGE_SIZE, Page(i)) in out
  }

  lemma StillHeld(a: seq<Placed>, b: seq<Placed>, s: seq<nat>, t: seq<nat>, i: nat, k: nat)
    requires a <= b && s <= t && Held(a, s, i, k)
    ensures Held(b, t, i, k)
  {
  }

  /** What arch code adds: program headers, note bytes, and data after the segments. */
  datatype Extra = Extra(phdrs: nat, notes: nat, data: nat)

  /** Every phdr points at the data of its segment, and says how much there is. */
  ghost predicate SegmentsAgree(out: seq<Placed>, sizes: seq<nat>, starts: seq<nat>) {
    && |starts| == |sizes| && |out| >= 2 + |sizes|
    && (forall i {:trigger starts[i]} :: 0 <= i < |sizes| ==>
          out[2 + i] == Placed(EHDR + PHDR + PHDR * i, PHDR, Program(Phdr(starts[i], sizes[i]))))
    && (forall i, k {:trigger Held(out, starts, i, k)} :: 0 <= i < |sizes| && 0 <= k < sizes[i] / PAGE_SIZE ==> Held(out, starts, i, k))
  }

  lemma StillAgree(a: seq<Placed>, b: seq<Placed>, sizes: seq<nat>, starts: seq<nat>)
    requires a <= b && SegmentsAgree(a, sizes, starts)
    ensures SegmentsAgree(b, sizes, starts)
  {
    forall i, k {:trigger Held(b, starts, i, k)} | 0 <= i < |sizes| && 0 <= k < sizes[i] / PAGE_SIZE ensures Held(b, starts, i, k) {
      StillHeld(a, b, starts, starts, i, k);
    }
  }

  method SumSizes(sizes: seq<nat>) returns (total: nat)
    ensures total == Total(sizes)
  {
    total := 0;
    for i := 0 to |sizes|
      invariant total == Total(sizes[..i])
    {
      TotalStep(sizes, i);
      total := total + sizes[i];
    }
    assert sizes[..|sizes|] == sizes;
  }

  /** What a section header that was written at `at` says, if there is one. */
  ghost function SectionAt(out: seq<Placed>, at: nat): Option<nat> {
    if out == [] then None else
      var last := out[|out| - 1];
      if last.at == at && last.item.Section? then Some(last.item.info) else SectionAt(out[..|out| - 1], at)
  }

  /** The number of segments that a reader of the file finds: from the ELF header, or from where that sends it. */
  ghost function CountRead(out: seq<Placed>): Option<nat> {
    if out == [] || !out[0].item.Header? then None
    else if out[0].item.phnum != PN_XNUM then Some(out[0].item.phnum)
    else SectionAt(out, out[0].item.shoff)
  }

  lemma HeadersTake(n: nat, e: nat)
    ensures EHDR + PHDR + PHDR * n + e * PHDR == EHDR + (n + e + 1) * PHDR && (EHDR + (n + e + 1) * PHDR) % 4 == 0
  {
    assert (n + e + 1) * 56 == 4 * ((n + e + 1) * 14);
  }

  /** Items `from` to `to` of the file are at `at`, and read as `notes`. */
  ghost predicate NotesRead(out: seq<Placed>, from: nat, to: nat, at: nat, notes: seq<Note>) {
    && from < to <= |out| && out[from].at == at
    && Bytes(out[from..to]) == EncodeAll(notes)
    && ((forall i :: 0 <= i < |notes| ==> FitsWords(notes[i])) ==> ReadNotes(Bytes(out[from..to])) == notes)
  }

  lemma NotesStillRead(a: seq<Placed>, b: seq<Placed>, from: nat, to: nat, at: nat, notes: seq<Note>)
    requires a <= b && NotesRead(a, from, to, at, notes)
    ensures NotesRead(b, from, to, at, notes)
  {
    assert a[from..to] == b[from..to];
  }

  lemma NotesAreRead(before: seq<Placed>, out: seq<Placed>, at: nat, notes: seq<Note>)
    requires Wrote(before, at, out, notes) && notes != []
    ensures before <= out && NotesRead(out, |before|, |out|, at, notes)
  {
    assert out[|before|..|out|] == out[|before|..];
    if forall i :: 0 <= i < |notes| ==> FitsWords(notes[i]) { ReadAll(notes); }
  }

  /** All headers, arch code's included. */
  method WriteHeaders(sizes: seq<nat>, extra: Extra, header: Item, note: Phdr, dataoff: nat) returns (d: Dump)
    requires note.offset == EHDR + (|sizes| + extra.phdrs + 1) * PHDR
    ensures fresh(d) && d.pos == note.offset && d.pos % 4 == 0
    ensures |d.out| >= 2 + |sizes| && d.out[0] == Placed(0, EHDR, header) && d.out[1] == Placed(EHDR, PHDR, Program(note))
    ensures forall i :: 0 <= i < |sizes| ==>
      d.out[2 + i] == Placed(EHDR + PHDR + PHDR * i, PHDR, Program(Phdr(dataoff + Total(sizes[..i]), sizes[i])))
  {
    hide Total;
    d := new Dump();
    d.Emit(EHDR, header);
    d.Emit(PHDR, Program(note));
    WriteProgramHeaders(d, sizes, dataoff);
    d.Emit(extra.phdrs * PHDR, Skip);
    HeadersTake(|sizes|, extra.phdrs);
  }

  /** The second pass up to the data: headers, notes, and the gap to the first page */
  method WriteFront(sizes: seq<nat>, threads: Threads, p: Process, room: nat, extra: Extra, header: Item, note: Phdr, dataoff: nat)
    returns (d: Dump, ghost from: nat, ghost to: nat, ghost wrote: nat)
    requires threads != [] && Started(threads) && forall t {:trigger threads[t]} :: 0 <= t < |threads| ==> |threads[t]| == room
    requires note.offset == EHDR + (|sizes| + extra.phdrs + 1) * PHDR && note.offset + note.filesz <= dataoff
    requires note.filesz == Size(InOrder(threads, p)) + extra.notes
    ensures fresh(d) && d.pos == dataoff && wrote == note.filesz && NotesRead(d.out, from, to, note.offset, InOrder(threads, p))
    ensures |d.out| >= 2 + |sizes| && d.out[0] == Placed(0, EHDR, header) && d.out[1] == Placed(EHDR, PHDR, Program(note))
    ensures forall i :: 0 <= i < |sizes| ==>
      d.out[2 + i] == Placed(EHDR + PHDR + PHDR * i, PHDR, Program(Phdr(dataoff + Total(sizes[..i]), sizes[i])))
  {
    hide Size, InOrder, Total, Wrote, NotesRead;
    d := WriteHeaders(sizes, extra, header, note, dataoff);
    ghost var headers := d.out;
    WriteNoteInfo(d, threads, p, room);
    ghost var noted := d.out;
    from, to := |headers|, |noted|;
    SomeInOrder(threads, p);
    NotesAreRead(headers, noted, note.offset, InOrder(threads, p));
    d.Emit(extra.notes, Skip);
    wrote := d.pos - note.offset;
    d.Emit(dataoff - d.pos, Skip);
    NotesStillRead(noted, d.out, from, to, note.offset, InOrder(threads, p));
    assert headers <= d.out;
  }

  /** The ELF header for `segs` segments: more than fit in e_phnum are counted by the section header at `shoff`. */
  ghost function ElfHeader(segs: nat, shoff: nat): Item {
    if segs < PN_XNUM then Header(segs, 0, 0) else Header(PN_XNUM, shoff, 1)
  }

  lemma SomeInOrder(threads: Threads, p: Process)
    requires Started(threads) && threads != []
    ensures InOrder(threads, p) != []
  {
  }

  /**
   elf_core_dump: `sizes` are the dump sizes of the vmas, the gate vma included; `tasks` is what the regsets of each thread give.
   The notes are items `from` to `to` of the file and took `wrote` bytes; `shoff` is where the data ends. There is no dump,
   only what became of collecting the notes, when those were refused or strayed.
   */
  method ElfCoreDump(sizes: seq<nat>, view: View, tasks: seq<Gives>, p: Process, extra: Extra)
    returns (c: Collected, d: Dump?, shoff: nat, noteOffset: nat, noteSize: nat,
             ghost from: nat, ghost to: nat, ghost wrote: nat, ghost starts: seq<nat>)
    requires forall i :: 0 <= i < |sizes| ==> sizes[i] % PAGE_SIZE == 0
    requires AllAnswer(view, tasks) && tasks != []
    ensures d != null <==> c.Collected?
    ensures c.Refused? <==> view == [] || view[0] != NT_PRSTATUS
    ensures c.Strayed? ==> c.t < |tasks| && LeavesArray(view, tasks[c.t], Types(view), c.i)
    ensures NoGap(view) ==> !c.Strayed?
    ensures d != null ==> forall t {:trigger tasks[t]} :: 0 <= t < |tasks| ==> NeverLeaves(view, tasks[t])
    ensures d != null ==> |d.out| >= 2 && d.out[0] == Placed(0, EHDR, ElfHeader(|sizes| + extra.phdrs + 1, shoff))
    ensures d != null ==> d.out[1] == Placed(EHDR, PHDR, Program(Phdr(noteOffset, noteSize))) && wrote == noteSize
    ensures d != null ==> c.room == Types(view) && |c.threads| == |tasks| && Started(c.threads)
    ensures d != null ==> forall t {:trigger tasks[t]} :: 0 <= t < |tasks| ==> c.threads[t] == Filled(view, tasks[t], c.room)
    ensures d != null ==> forall t {:trigger tasks[t]} :: 0 <= t < |tasks| ==> InPlace(view, tasks[t], c.threads[t])
    ensures d != null ==> NotesRead(d.out, from, to, noteOffset, InOrder(c.threads, p))
    ensures d != null ==> SegmentsAgree(d.out, sizes, starts)
    ensures d != null && |sizes| + extra.phdrs + 1 >= PN_XNUM ==> Placed(shoff, SHDR, Section(|sizes| + extra.phdrs + 1)) in d.out
    ensures d != null ==> CountRead(d.out) == Some(|sizes| + extra.phdrs + 1)
  {
    hide Size, InOrder, Total, RoundPage, Held, NotesRead, NoGap, LeavesArray, Types, Filled, NeverLeaves, Started, InPlace;
    var segs := |sizes| + extra.phdrs + 1;
    var phnum := if segs > PN_XNUM then PN_XNUM else segs;
    d, shoff, noteOffset, noteSize, from, to, wrote, starts := null, 0, 0, 0, 0, 0, 0, [];
    c := FillNoteInfo(view, tasks, p);
    if !c.Collected? {
      if c.Strayed? { StrayMeansGap(view, tasks[c.t], c.i); }
      return;
    }
    noteSize := c.size + extra.notes;
    noteOffset := EHDR + segs * PHDR;
    var dataoff := RoundPage(noteOffset + noteSize);
    var dataSize := SumSizes(sizes);
    shoff := dataoff + dataSize + extra.data;
    RoomsAlike(view, tasks, c);
    var f;
    var header := Header(phnum, 0, 0);
    if phnum == PN_XNUM { header := header.(shoff := shoff, shnum := 1); }
    f, from, to, wrote := WriteFront(sizes, c.threads, p, c.room, extra, header, Phdr(noteOffset, noteSize), dataoff);
    ghost var headers := f.out;
    starts := WriteSegments(f, sizes);
    ghost var body := f.out;
    PointAtSegments(headers, body, sizes, starts, dataoff);
    f.Emit(extra.data, Skip);
    ghost var last := |f.out|;
    if phnum == PN_XNUM {
      f.Emit(SHDR, Section(segs));
      assert f.out[last] == Placed(shoff, SHDR, Section(segs));
    }
    StillAgree(body, f.out, sizes, starts);
    NotesStillRead(headers, f.out, from, to, noteOffset, InOrder(c.threads, p));
    assert body[0] == headers[0] && body[1] == headers[1];
    d := f;
  }

  lemma StrayMeansGap(view: View, g: Gives, i: nat)
    requires Answers(view, g) && LeavesArray(view, g, Types(view), i) && view[0] == NT_PRSTATUS
    ensures !NoGap(view)
  {
    hide Types, NoGap;
    RoomExact(view);
    assert !NeverLeaves(view, g);
  }

  lemma RoomsAlike(view: View, tasks: seq<Gives>, c: Collected)
    requires c.Collected? && AllAnswer(view, tasks) && |c.threads| == |tasks| && c.room == Types(view)
    requires forall t {:trigger tasks[t]} :: 0 <= t < |tasks| ==> c.threads[t] == Filled(view, tasks[t], c.room)
    ensures forall t {:trigger c.threads[t]} :: 0 <= t < |c.threads| ==> |c.threads[t]| == c.room
  {
    hide Types;
    forall t {:trigger c.threads[t]} | 0 <= t < |c.threads| ensures |c.threads[t]| == c.room { assert Answers(view, tasks[t]); }
  }

  lemma PointAtSegments(headers: seq<Placed>, body: seq<Placed>, sizes: seq<nat>, starts: seq<nat>, dataoff: nat)
    requires headers <= body && |headers| >= 2 + |sizes| && |starts| == |sizes|
    requires forall i :: 0 <= i < |sizes| ==>
      headers[2 + i] == Placed(EHDR + PHDR + PHDR * i, PHDR, Program(Phdr(dataoff + Total(sizes[..i]), sizes[i])))
    requires forall i :: 0 <= i < |sizes| ==> starts[i] == dataoff + Total(sizes[..i])
    requires forall i, k {:trigger Held(body, starts, i, k)} :: 0 <= i < |sizes| && 0 <= k < sizes[i] / PAGE_SIZE ==>
      Held(body, starts, i, k)
    ensures SegmentsAgree(body, sizes, starts)
  {
    hide Total, Held;
    forall i {:trigger starts[i]} | 0 <= i < |sizes|
      ensures body[2 + i] == Placed(EHDR + PHDR + PHDR * i, PHDR, Program(Phdr(starts[i], sizes[i])))
    {
      assert headers[2 + i] == body[2 + i];
    }
  }
}
