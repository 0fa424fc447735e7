/** The notes of a core file: counted while they are collected, then written, to be read back by their own headers. */
module CoreNotes {
  import opened Lists

  const NHDR: nat := 12   // sizeof(struct elf_note)
  const NT_PRSTATUS: nat := 1
  const WORD: nat := 0x1_0000_0000

  /** roundup(x, 4) */
  function Round4(x: nat): (r: nat)
    ensures x <= r < x + 4 && r % 4 == 0
  {
    ((x + 3) / 4) * 4
  }

  datatype Note = Note(name: seq<int>, kind: nat, data: seq<int>)

  datatype Option<T> = None | Some(v: T)

  /** One phdr, as far as places and sizes go. */
  datatype Phdr = Phdr(offset: nat, filesz: nat)

  datatype Item =
    | Header(phnum: nat, shoff: nat, shnum: nat)
    | Program(p: Phdr)
    | NotePart(bytes: seq<int>)
    | Page(vma: nat)
    | Skip
    | Section(info: nat)

  /** `len` bytes written at `at`. */
  datatype Placed = Placed(at: nat, len: nat, item: Item)

  /** The file as it is written: dump_emit and dump_skip only ever go forward. */
  class Dump {
    var pos: nat
    var out: seq<Placed>

    constructor ()
      ensures pos == 0 && out == []
    {
      pos, out := 0, [];
    }

    method Emit(len: nat, item: Item)
      modifies this
      ensures pos == old(pos) + len && out == old(out) + [Placed(old(pos), len, item)]
    {
      out := out + [Placed(pos, len, item)];
      pos := pos + len;
    }

    /** dump_align to four bytes */
    method Align()
      modifies this
      ensures pos == Round4(old(pos)) && old(out) <= out
      ensures Bytes(out[|old(out)|..]) == Zeros(pos - old(pos))
    {
      var mod := pos % 4;
      if mod != 0 {
        Emit(4 - mod, Skip);
        assert out[|old(out)|..] == [Placed(old(pos), 4 - mod, Skip)];
      } else {
        assert out[|old(out)|..] == [];
      }
    }
  }

  ghost function Zeros(n: nat): (r: seq<int>)
    ensures |r| == n
  {
    seq(n, _ => 0)
  }

  /** What is in the file for items that are parts of notes or holes, which read as zeros. */
  ghost function Bytes(out: seq<Placed>): seq<int> {
    if out == [] then [] else
      (match out[0].item case NotePart(b) => b case _ => Zeros(out[0].len)) + Bytes(out[1..])
  }

  lemma {:induction false} BytesAppend(a: seq<Placed>, b: seq<Placed>)
    ensures Bytes(a + b) == Bytes(a) + Bytes(b)
  {
    if a == [] {
      assert a + b == b;
    } else {
      var head := match a[0].item case NotePart(b) => b case _ => Zeros(a[0].len);
      calc {
        Bytes(a + b);
        { assert (a + b)[1..] == a[1..] + b; }
        head + Bytes(a[1..] + b);
        { BytesAppend(a[1..], b); }
        head + (Bytes(a[1..]) + Bytes(b));
        { Reassociate(head, Bytes(a[1..]), Bytes(b)); }
        Bytes(a) + Bytes(b);
      }
    }
  }

  lemma BytesThen(a: seq<Placed>, b: seq<Placed>, c: seq<Placed>)
    requires a <= b <= c
    ensures Bytes(c[|a|..]) == Bytes(b[|a|..]) + Bytes(c[|b|..])
  {
    assert c[|a|..] == b[|a|..] + c[|b|..];
    BytesAppend(b[|a|..], c[|b|..]);
  }

  // ---------------------------------------------------------------- one note

  /** notesize */
  function NoteSize(n: Note): (r: nat) {
    NHDR + Round4(|n.name| + 1) + Round4(|n.data|)
  }

  /** A word of 32 bits, its low byte first. */
  function Word(w: nat): (r: seq<int>)
    ensures |r| == 4
  {
    [w % 256, w / 256 % 256, w / 65536 % 256, w / 16777216 % 256]
  }

  ghost function Value(b: seq<int>): int
    requires |b| == 4
  {
    b[0] + 256 * b[1] + 65536 * b[2] + 16777216 * b[3]
  }

  lemma WordValue(w: nat)
    requires w < WORD
    ensures Value(Word(w)) == w
  {
    assert w == w % 256 + 256 * (w / 256);
    assert w / 256 == w / 256 % 256 + 256 * (w / 256 / 256);
    assert w / 65536 == w / 65536 % 256 + 256 * (w / 65536 / 256);
    assert w / 256 / 256 == w / 65536 && w / 65536 / 256 == w / 16777216;
  }

  function Head(n: Note): (r: seq<int>)
    ensures |r| == NHDR
  {
    Word(|n.name| + 1) + Word(|n.data|) + Word(n.kind)
  }

  /** A string or block with padding up to a multiple of four. */
  ghost function Padded(b: seq<int>): (r: seq<int>)
    ensures |r| == Round4(|b|) && r[..|b|] == b
  {
    b + Zeros(Round4(|b|) - |b|)
  }

  ghost function Encode(n: Note): (r: seq<int>)
    ensures |r| == NoteSize(n)
  {
    Head(n) + Padded(n.name + [0]) + Padded(n.data)
  }

  /** A file position that is a multiple of four stays one when something padded is written. */
  lemma RoundAdds(p: nat, x: nat)
    requires p % 4 == 0
    ensures Round4(p + x) == p + Round4(x)
  {
  }

  /** A block and the alignment after it. */
  method EmitPadded(d: Dump, b: seq<int>)
    requires d.pos % 4 == 0
    modifies d
    ensures d.pos == old(d.pos) + Round4(|b|) && d.pos % 4 == 0
    ensures old(d.out) <= d.out && Bytes(d.out[|old(d.out)|..]) == Padded(b)
  {
    d.Emit(|b|, NotePart(b));
    ghost var mid := d.out;
    assert mid[|old(d.out)|..] == [Placed(old(d.pos), |b|, NotePart(b))];
    assert Bytes(mid[|old(d.out)|..]) == b + Bytes([]);
    d.Align();
    RoundAdds(old(d.pos), |b|);
    BytesThen(old(d.out), mid, d.out);
  }

  /** writenote: from an aligned position a note takes what notesize says, and is laid out by its header */
  method WriteNote(d: Dump, n: Note)
    requires d.pos % 4 == 0
    modifies d
    ensures d.pos == old(d.pos) + NoteSize(n) && d.pos % 4 == 0
    ensures old(d.out) <= d.out && Bytes(d.out[|old(d.out)|..]) == Encode(n)
    ensures |d.out| > |old(d.out)| && d.out[|old(d.out)|].at == old(d.pos)
  {
    hide Round4, Padded, Head;
    d.Emit(NHDR, NotePart(Head(n)));
    ghost var one := d.out;
    assert one[|old(d.out)|..] == [Placed(old(d.pos), NHDR, NotePart(Head(n)))];
    assert Bytes(one[|old(d.out)|..]) == Head(n) + Bytes([]) == Head(n);
    EmitPadded(d, n.name + [0]);
    ghost var two := d.out;
    EmitPadded(d, n.data);
    BytesThen(old(d.out), one, two);
    BytesThen(old(d.out), two, d.out);
  }

  // ---------------------------------------------------------------- reading notes

  /** The first note in `b`, and where it ends. */
  ghost function ReadNote(b: seq<int>): Option<(Note, nat)> {
    if |b| < NHDR then None else
      var namesz, descsz, kind := Value(b[0..4]), Value(b[4..8]), Value(b[8..12]);
      if namesz < 1 || descsz < 0 || kind < 0 || NHDR + Round4(namesz) + Round4(descsz) > |b| then None else
        var at := NHDR + Round4(namesz);
        Some((Note(b[NHDR..NHDR + namesz - 1], kind, b[at..at + descsz]), at + Round4(descsz)))
  }

  ghost function ReadNotes(b: seq<int>): seq<Note>
    decreases |b|
  {
    if ReadNote(b).None? then [] else [ReadNote(b).v.0] + ReadNotes(b[ReadNote(b).v.1..])
  }

  ghost function EncodeAll(notes: seq<Note>): seq<int> {
    if notes == [] then [] else Encode(notes[0]) + EncodeAll(notes[1..])
  }

  /** The three words of a header can hold what they are to hold. */
  ghost predicate FitsWords(n: Note) {
    |n.name| + 1 < WORD && |n.data| < WORD && n.kind < WORD
  }

  lemma HeadWords(n: Note)
    requires FitsWords(n)
    ensures Value(Head(n)[0..4]) == |n.name| + 1 && Value(Head(n)[4..8]) == |n.data| && Value(Head(n)[8..12]) == n.kind
  {
    hide Word, Value;
    WordValue(|n.name| + 1);
    WordValue(|n.data|);
    WordValue(n.kind);
    assert Head(n)[0..4] == Word(|n.name| + 1) && Head(n)[4..8] == Word(|n.data|) && Head(n)[8..12] == Word(n.kind);
  }

  lemma Parts(a: seq<int>, b: seq<int>, c: seq<int>, rest: seq<int>)
    ensures var all := a + b + c + rest;
      all[..|a|] == a && all[|a|..|a| + |b|] == b && all[|a| + |b|..|a| + |b| + |c|] == c && all[|a| + |b| + |c|..] == rest
  {
  }

  lemma SubSlice(b: seq<int>, part: seq<int>, at: nat, k: nat)
    requires at + |part| <= |b| && b[at..at + |part|] == part && k <= |part|
    ensures b[at..at + k] == part[..k]
  {
    assert b[at..at + k] == b[at..at + |part|][..k];
  }

  lemma ReadEncode(n: Note, rest: seq<int>)
    requires FitsWords(n)
    ensures ReadNote(Encode(n) + rest) == Some((n, NoteSize(n))) && (Encode(n) + rest)[NoteSize(n)..] == rest
  {
    hide Head, Padded, Value, Round4;
    var b, name, data := Encode(n) + rest, Padded(n.name + [0]), Padded(n.data);
    Parts(Head(n), name, data, rest);
    HeadWords(n);
    assert b[0..4] == Head(n)[0..4] && b[4..8] == Head(n)[4..8] && b[8..12] == Head(n)[8..12];
    SubSlice(b, name, NHDR, |n.name|);
    assert name[..|n.name|] == (n.name + [0])[..|n.name|] == n.name;
    SubSlice(b, data, NHDR + |name|, |n.data|);
  }

  /** Reading a note segment back gives its notes, in order. */
  lemma {:induction false} ReadAll(notes: seq<Note>)
    requires forall i :: 0 <= i < |notes| ==> FitsWords(notes[i])
    ensures ReadNotes(EncodeAll(notes)) == notes
  {
    hide ReadNote, Encode, FitsWords, NoteSize;
    if notes == [] {
      NothingRead();
    } else {
      ReadEncode(notes[0], EncodeAll(notes[1..]));
      ReadAll(notes[1..]);
    }
  }

  lemma NothingRead()
    ensures ReadNote([]).None?
  {
  }

  lemma {:induction false} EncodeAppend(a: seq<Note>, b: seq<Note>)
    ensures EncodeAll(a + b) == EncodeAll(a) + EncodeAll(b)
  {
    hide Encode;
    if a == [] {
      assert a + b == b;
    } else {
      calc {
        EncodeAll(a + b);
        { assert (a + b)[1..] == a[1..] + b; }
        Encode(a[0]) + EncodeAll(a[1..] + b);
        { EncodeAppend(a[1..], b); }
        Encode(a[0]) + (EncodeAll(a[1..]) + EncodeAll(b));
        { Reassociate(Encode(a[0]), EncodeAll(a[1..]), EncodeAll(b)); }
        EncodeAll(a) + EncodeAll(b);
      }
    }
  }

  // ---------------------------------------------------------------- collecting notes

  /** The core_note_type of every regset of the view, 0 for none. */
  type View = seq<nat>

  /** What the regsets of a thread give, each for itself: nothing if one is inactive or cannot be read. */
  type Gives = seq<Option<Note>>

  ghost predicate Answers(view: View, g: Gives) {
    |g| == |view| && (view != [] ==> g[0].Some?)
  }

  /** What the first regset and every other one with a type gives stands at its index, and nothing else does. */
  ghost predicate InPlace(view: View, g: Gives, notes: seq<Option<Note>>)
    requires |g| == |view|
  {
    forall i {:trigger g[i]} :: 0 <= i < |view| ==>
      && (i < |notes| ==> notes[i] == if i == 0 || view[i] != 0 then g[i] else None)
      && ((i == 0 || view[i] != 0) && g[i].Some? ==> i < |notes|)
  }

  /** How many regsets have a note type. */
  ghost function Types(view: View): (r: nat)
    ensures r <= |view|
  {
    if view == [] then 0 else (if view[0] != 0 then 1 else 0) + Types(view[1..])
  }

  /** The note that fill_thread_core_info fills for regset `i`: the first always, the others if they have a type. */
  ghost function FilledAt(view: View, g: Gives, i: nat): Option<Note>
    requires Answers(view, g) && i < |view|
  {
    if i == 0 || view[i] != 0 then g[i] else None
  }

  ghost function Filled(view: View, g: Gives, n: nat): (r: seq<Option<Note>>)
    requires Answers(view, g) && n <= |view|
    ensures |r| == n && forall i :: 0 <= i < n ==> r[i] == FilledAt(view, g, i)
  {
    seq(n, i requires 0 <= i < n => FilledAt(view, g, i))
  }

  ghost function Present(notes: seq<Option<Note>>): seq<Note> {
    if notes == [] then [] else (if notes[0].Some? then [notes[0].v] else []) + Present(notes[1..])
  }

  lemma {:induction false} PresentAppend(a: seq<Option<Note>>, b: seq<Option<Note>>)
    ensures Present(a + b) == Present(a) + Present(b)
  {
    if a == [] {
      assert a + b == b;
    } else {
      var head := if a[0].Some? then [a[0].v] else [];
      calc {
        Present(a + b);
        { assert (a + b)[1..] == a[1..] + b; }
        head + Present(a[1..] + b);
        { PresentAppend(a[1..], b); }
        head + (Present(a[1..]) + Present(b));
        { Reassociate(head, Present(a[1..]), Present(b)); }
        Present(a) + Present(b);
      }
    }
  }

  lemma {:induction false} NonePresent(notes: seq<Option<Note>>)
    requires forall i :: 0 <= i < |notes| ==> notes[i].None?
    ensures Present(notes) == []
  {
    if notes != [] { NonePresent(notes[1..]); }
  }

  /** The bytes that notes take. */
  ghost function Size(notes: seq<Note>): nat { |EncodeAll(notes)| }

  lemma SizeAppend(a: seq<Note>, b: seq<Note>)
    ensures Size(a + b) == Size(a) + Size(b)
  {
    EncodeAppend(a, b);
  }

  lemma SizeOne(n: Note)
    ensures Size([n]) == NoteSize(n)
  {
    hide Encode, NoteSize;
    assert [n][1..] == [] && EncodeAll([]) == [] && EncodeAll([n]) == Encode(n) + EncodeAll([n][1..]);
  }

  /** One more regset. */
  lemma OneMore(view: View, g: Gives, i: nat)
    requires Answers(view, g) && i < |view|
    ensures Size(Present(Filled(view, g, i + 1))) ==
      Size(Present(Filled(view, g, i))) + if FilledAt(view, g, i).Some? then NoteSize(FilledAt(view, g, i).v) else 0
  {
    hide Size, NoteSize;
    var a, o := Filled(view, g, i), FilledAt(view, g, i);
    assert Filled(view, g, i + 1) == a + [o];
    PresentAppend(a, [o]);
    assert [o][1..] == [] && Present([]) == [] && Present([o]) == if o.Some? then [o.v] else [];
    SizeAppend(Present(a), Present([o]));
    if o.Some? { SizeOne(o.v); } else { SizeNone(); }
  }

  lemma SizeNone()
    ensures Size([]) == 0
  {
  }

  /** The count of fill_note_info. */
  method CountTypes(view: View) returns (n: nat)
    ensures n == Types(view)
  {
    n := 0;
    for i := 0 to |view|
      invariant n == Types(view[..i])
    {
      TypesStep(view, i);
      if view[i] != 0 { n := n + 1; }
    }
    assert view[..|view|] == view;
  }

  lemma {:induction false} TypesAppend(a: View, b: View)
    ensures Types(a + b) == Types(a) + Types(b)
  {
    if a == [] {
      assert a + b == b;
    } else {
      TypesAppend(a[1..], b);
      assert (a + b)[1..] == a[1..] + b;
    }
  }

  lemma TypesStep(view: View, i: nat)
    requires i < |view|
    ensures Types(view[..i + 1]) == Types(view[..i]) + if view[i] != 0 then 1 else 0
  {
    assert view[..i + 1] == view[..i] + [view[i]];
    TypesAppend(view[..i], [view[i]]);
    assert [view[i]][1..] == [] && Types([]) == 0;
  }

  /** A note is filled for a regset at or past `room`. */
  ghost predicate LeavesArray(view: View, g: Gives, room: nat, i: nat)
    requires Answers(view, g)
  {
    room <= i < |view| && FilledAt(view, g, i).Some?
  }

  /**
   fill_thread_core_info: `room` is the length of the array of notes; `stray` is the first index outside it that a note would
   be stored at, `size` what the notes of the thread add to the count.
   */
  method FillThread(view: View, g: Gives, room: nat) returns (notes: seq<Option<Note>>, size: nat, stray: Option<nat>)
    requires Answers(view, g) && 1 <= room <= |view|
    ensures stray.Some? ==> LeavesArray(view, g, room, stray.v)
    ensures stray.None? ==> (forall i: nat :: !LeavesArray(view, g, room, i))
    ensures stray.None? ==> notes == Filled(view, g, room) && size == Size(Present(notes))
  {
    hide NoteSize, Size, Present, Filled;
    var a := new Option<Note>[room](_ => None);
    a[0] := g[0];
    size := NoteSize(g[0].v);
    FirstFilled(view, g);
    stray, notes := None, [];
    for i := 1 to |view|
      invariant size == Size(Present(Filled(view, g, i)))
      invariant forall j :: 0 <= j < i ==> if j < room then a[j] == FilledAt(view, g, j) else FilledAt(view, g, j).None?
      invariant forall j :: i <= j < room ==> a[j].None?
    {
      OneMore(view, g, i);
      if view[i] != 0 && g[i].Some? {
        if i >= room {
          stray := Some(i);
          return;
        }
        a[i] := g[i];
        size := size + NoteSize(g[i].v);
      }
    }
    notes := a[..];
    AllInside(view, g, room, notes);
  }

  lemma FirstFilled(view: View, g: Gives)
    requires Answers(view, g) && view != []
    ensures Size(Present(Filled(view, g, 1))) == NoteSize(g[0].v)
  {
    hide NoteSize, Size;
    OneMore(view, g, 0);
    SizeNone();
  }

  lemma AllInside(view: View, g: Gives, room: nat, notes: seq<Option<Note>>)
    requires Answers(view, g) && room <= |view| && |notes| == room
    requires forall j :: 0 <= j < room ==> notes[j] == FilledAt(view, g, j)
    requires forall j :: room <= j < |view| ==> FilledAt(view, g, j).None?
    ensures notes == Filled(view, g, room) && Present(Filled(view, g, |view|)) == Present(notes)
  {
    hide Present;
    var all := Filled(view, g, |view|);
    assert all == all[..room] + all[room..] && all[..room] == notes;
    PresentAppend(all[..room], all[room..]);
    NonePresent(all[room..]);
  }

  // ---------------------------------------------------------------- when the array is long enough

  /** No regset without a note type comes before one with a type. */
  ghost predicate NoGap(view: View) {
    forall i, j :: 0 <= i < j < |view| && view[j] != 0 ==> view[i] != 0
  }

  lemma {:induction false} AllTyped(view: View)
    ensures Types(view) == |view| <==> forall i :: 0 <= i < |view| ==> view[i] != 0
  {
    if view != [] {
      AllTyped(view[1..]);
      assert forall i :: 1 <= i < |view| ==> view[i] == view[1..][i - 1];
      if forall i :: 0 <= i < |view[1..]| ==> view[1..][i] != 0 {
        assert forall i :: 1 <= i < |view| ==> view[i] != 0;
      }
    }
  }

  lemma {:induction false} NoneTyped(view: View)
    requires forall i :: 0 <= i < |view| ==> view[i] == 0
    ensures Types(view) == 0
  {
    if view != [] { NoneTyped(view[1..]); }
  }

  /** Every regset with a type has an index below their number if and only if there is no gap. */
  lemma IndexExact(view: View)
    ensures (forall j :: 0 <= j < |view| && view[j] != 0 ==> j < Types(view)) <==> NoGap(view)
  {
    hide Types;
    var n := Types(view);
    if NoGap(view) {
      forall j | 0 <= j < |view| && view[j] != 0
        ensures j < n
      {
        assert view == view[..j + 1] + view[j + 1..];
        TypesAppend(view[..j + 1], view[j + 1..]);
        AllTyped(view[..j + 1]);
      }
    }
    if forall j :: 0 <= j < |view| && view[j] != 0 ==> j < n {
      assert view == view[..n] + view[n..];
      TypesAppend(view[..n], view[n..]);
      NoneTyped(view[n..]);
      AllTyped(view[..n]);
      assert forall i :: 0 <= i < n ==> view[i] == view[..n][i];
    }
  }

  ghost predicate NeverLeaves(view: View, g: Gives)
    requires Answers(view, g)
  {
    forall i: nat :: !LeavesArray(view, g, Types(view), i)
  }

  /** No thread whatever stores a note outside its array, if and only if the view has no gap. */
  lemma RoomExact(view: View)
    requires view != [] && view[0] != 0
    ensures (forall g: Gives {:trigger Answers(view, g)} :: Answers(view, g) ==> NeverLeaves(view, g)) <==> NoGap(view)
  {
    hide Types, NoGap;
    IndexExact(view);
    if !NoGap(view) {
      var j :| 0 <= j < |view| && view[j] != 0 && j >= Types(view);
      var g: Gives := seq(|view|, _ => Some(Note([], 0, [])));
      assert Answers(view, g) && LeavesArray(view, g, Types(view), j);
    } else {
      forall g: Gives | Answers(view, g)
        ensures NeverLeaves(view, g)
      {
        forall i: nat ensures !LeavesArray(view, g, Types(view), i) {
          if i == 0 { assert view[0] != 0; }
        }
      }
    }
  }

  /** The notes below the number of types take as much as all that are counted. */
  ghost predicate CountFits(view: View, g: Gives)
    requires Answers(view, g)
  {
    Size(Present(Filled(view, g, Types(view)))) == Size(Present(Filled(view, g, |view|)))
  }

  lemma {:induction false} SomePresent(notes: seq<Option<Note>>, i: nat)
    requires i < |notes| && notes[i].Some?
    ensures Size(Present(notes)) > 0
  {
    if i == 0 {
      assert Size(Present(notes)) >= |Encode(notes[0].v)|;
    } else {
      hide Size;
      SomePresent(notes[1..], i - 1);
      SizeAppend(if notes[0].Some? then [notes[0].v] else [], Present(notes[1..]));
    }
  }

  lemma CountFitsExact(view: View, g: Gives)
    requires Answers(view, g)
    ensures CountFits(view, g) <==> NeverLeaves(view, g)
  {
    hide Size, Present, Types;
    var n, all := Types(view), Filled(view, g, |view|);
    assert all == all[..n] + all[n..] && all[..n] == Filled(view, g, n);
    PresentAppend(all[..n], all[n..]);
    SizeAppend(Present(all[..n]), Present(all[n..]));
    if NeverLeaves(view, g) {
      forall i | n <= i < |view| ensures all[i].None? { assert !LeavesArray(view, g, n, i); }
      NonePresent(all[n..]);
      SizeNone();
    } else {
      var i: nat :| LeavesArray(view, g, n, i);
      SomePresent(all[n..], i - n);
    }
  }

  /** What is written is what was counted, for all threads of a view, if and only if the view has no gap. */
  lemma CountExact(view: View)
    requires view != [] && view[0] != 0
    ensures (forall g: Gives {:trigger Answers(view, g)} :: Answers(view, g) ==> CountFits(view, g)) <==> NoGap(view)
  {
    hide CountFits, NeverLeaves, NoGap;
    RoomExact(view);
    forall g: Gives | Answers(view, g) ensures CountFits(view, g) <==> NeverLeaves(view, g) { CountFitsExact(view, g); }
  }

  /** The third of three regsets, the second of which has no type: its note is stored outside an array of two. */
  lemma GapLeavesArray(g: Gives)
    requires |g| == 3 && g[0].Some? && g[2].Some?
    ensures Answers([1, 0, 2], g) && Types([1, 0, 2]) == 2 && LeavesArray([1, 0, 2], g, 2, 2)
  {
    assert Types([2]) == 1 && Types([0, 2]) == 1 by { assert [2][1..] == [] && [0, 2][1..] == [2]; }
    assert [1, 0, 2][1..] == [0, 2];
  }

  // ---------------------------------------------------------------- all notes

  /** The process-wide notes: psinfo, siginfo, auxv, and the mapped files if there was memory for them. */
  datatype Process = Process(psinfo: Note, signote: Note, auxv: Note, files: Option<Note>)

  ghost function ProcessNotes(p: Process): seq<Note> {
    [p.psinfo, p.signote, p.auxv] + if p.files.Some? then [p.files.v] else []
  }

  /** The array of notes of every thread. */
  type Threads = seq<seq<Option<Note>>>

  ghost predicate Started(threads: Threads) {
    forall t {:trigger threads[t]} :: 0 <= t < |threads| ==> threads[t] != [] && threads[t][0].Some?
  }

  /** The notes of threads `from` on, one thread after the other. */
  ghost function AllPresent(threads: Threads): seq<Note> {
    if threads == [] then [] else Present(threads[0]) + AllPresent(threads[1..])
  }

  /** The order of write_note_info: the process-wide notes come after the first note of the first thread. */
  ghost function InOrder(threads: Threads, p: Process): seq<Note>
    requires Started(threads) && threads != []
  {
    [threads[0][0].v] + ProcessNotes(p) + Present(threads[0][1..]) + AllPresent(threads[1..])
  }

  lemma {:induction false} AllPresentAppend(a: Threads, b: Threads)
    ensures AllPresent(a + b) == AllPresent(a) + AllPresent(b)
  {
    hide Present;
    if a == [] {
      assert a + b == b;
    } else {
      calc {
        AllPresent(a + b);
        { assert (a + b)[1..] == a[1..] + b; }
        Present(a[0]) + AllPresent(a[1..] + b);
        { AllPresentAppend(a[1..], b); }
        Present(a[0]) + (AllPresent(a[1..]) + AllPresent(b));
        { Reassociate(Present(a[0]), AllPresent(a[1..]), AllPresent(b)); }
        AllPresent(a) + AllPresent(b);
      }
    }
  }

  lemma AllPresentStep(threads: Threads, t: nat)
    requires t < |threads|
    ensures AllPresent(threads[..t + 1]) == AllPresent(threads[..t]) + Present(threads[t])
  {
    hide Present;
    assert threads[..t + 1] == threads[..t] + [threads[t]];
    AllPresentAppend(threads[..t], [threads[t]]);
    assert [threads[t]][1..] == [] && AllPresent([]) == [];
  }

  /** Whatever the order, the notes take the same room. */
  lemma OrderKeepsSize(threads: Threads, p: Process)
    requires Started(threads) && threads != []
    ensures Size(InOrder(threads, p)) == Size(AllPresent(threads)) + Size(ProcessNotes(p))
  {
    hide Size, ProcessNotes;
    var first, rest, more := [threads[0][0].v], Present(threads[0][1..]), AllPresent(threads[1..]);
    assert Present(threads[0]) == first + rest;
    SizeAppend(first + ProcessNotes(p) + rest, more);
    SizeAppend(first + ProcessNotes(p), rest);
    SizeAppend(first, ProcessNotes(p));
    SizeAppend(first + rest, more);
    SizeAppend(first, rest);
  }

  lemma ProcessSize(p: Process)
    ensures Size(ProcessNotes(p)) ==
      NoteSize(p.psinfo) + NoteSize(p.signote) + NoteSize(p.auxv) + if p.files.Some? then NoteSize(p.files.v) else 0
  {
    hide Size, NoteSize;
    var files := if p.files.Some? then [p.files.v] else [];
    SizeAppend([p.psinfo, p.signote, p.auxv], files);
    assert [p.psinfo, p.signote, p.auxv] == [p.psinfo] + [p.signote] + [p.auxv];
    SizeAppend([p.psinfo] + [p.signote], [p.auxv]);
    SizeAppend([p.psinfo], [p.signote]);
    SizeOne(p.psinfo);
    SizeOne(p.signote);
    SizeOne(p.auxv);
    SizeNone();
    if p.files.Some? { SizeOne(p.files.v); }
  }

  /** What becomes of fill_note_info: notes, no dump, or a store outside the array of thread `t`. */
  datatype Collected = Collected(threads: Threads, size: nat, room: nat) | Refused | Strayed(t: nat, i: nat)

  ghost predicate AllAnswer(view: View, tasks: seq<Gives>) {
    forall t {:trigger tasks[t]} :: 0 <= t < |tasks| ==> Answers(view, tasks[t])
  }

  lemma FilledInPlace(view: View, g: Gives, room: nat)
    requires Answers(view, g) && room == Types(view) && forall i: nat :: !LeavesArray(view, g, room, i)
    ensures NeverLeaves(view, g) && InPlace(view, g, Filled(view, g, room))
  {
    forall i {:trigger g[i]} | 0 <= i < |view| && (i == 0 || view[i] != 0) && g[i].Some? ensures i < room {
      assert !LeavesArray(view, g, room, i);
    }
  }

  /** fill_note_info: `tasks` are the threads in the order of the list */
  method FillNoteInfo(view: View, tasks: seq<Gives>, p: Process) returns (r: Collected)
    requires AllAnswer(view, tasks) && tasks != []
    ensures r.Refused? <==> view == [] || view[0] != NT_PRSTATUS
    ensures r.Strayed? ==> r.t < |tasks| && LeavesArray(view, tasks[r.t], Types(view), r.i)
    ensures r.Collected? ==> forall t {:trigger tasks[t]} :: 0 <= t < |tasks| ==> NeverLeaves(view, tasks[t])
    ensures r.Collected? ==> r.room == Types(view) && |r.threads| == |tasks| && Started(r.threads)
    ensures r.Collected? ==> forall t {:trigger tasks[t]} :: 0 <= t < |tasks| ==> r.threads[t] == Filled(view, tasks[t], r.room)
    ensures r.Collected? ==> forall t {:trigger tasks[t]} :: 0 <= t < |tasks| ==> InPlace(view, tasks[t], r.threads[t])
    ensures r.Collected? ==> r.size == Size(InOrder(r.threads, p))
  {
    hide Size, NoteSize, Present, Filled, ProcessNotes, InPlace, NeverLeaves;
    var room := CountTypes(view);
    if room == 0 || view[0] != NT_PRSTATUS {
      if view != [] { FirstCounts(view); }
      return Refused;
    }
    var threads, size := [], 0;
    SizeNone();
    for t := 0 to |tasks|
      invariant |threads| == t && Started(threads) && size == Size(AllPresent(threads))
      invariant forall u {:trigger tasks[u]} :: 0 <= u < t ==> threads[u] == Filled(view, tasks[u], room) && NeverLeaves(view, tasks[u])
      invariant forall u {:trigger tasks[u]} :: 0 <= u < t ==> InPlace(view, tasks[u], threads[u])
    {
      var notes, more, stray := FillThread(view, tasks[t], room);
      if stray.Some? { return Strayed(t, stray.v); }
      ghost var before := threads;
      threads := threads + [notes];
      AllPresentStep(threads, t);
      assert threads[..t + 1] == threads && threads[..t] == before;
      SizeAppend(AllPresent(before), Present(notes));
      FilledFirst(view, tasks[t], room);
      FilledInPlace(view, tasks[t], room);
      size := size + more;
    }
    OrderKeepsSize(threads, p);
    ProcessSize(p);
    size := size + NoteSize(p.psinfo);
    size := size + NoteSize(p.signote);
    size := size + NoteSize(p.auxv);
    if p.files.Some? { size := size + NoteSize(p.files.v); }
    r := Collected(threads, size, room);
  }

  lemma FirstCounts(view: View)
    requires view != []
    ensures view[0] != 0 ==> Types(view) > 0
  {
  }

  lemma FilledFirst(view: View, g: Gives, room: nat)
    requires Answers(view, g) && 1 <= room <= |view|
    ensures Filled(view, g, room) != [] && Filled(view, g, room)[0].Some?
  {
  }

  // ---------------------------------------------------------------- writing notes

  /** What has been written since `before`, from `start` on, is the encoding of `notes`. */
  ghost predicate Wrote(before: seq<Placed>, start: nat, out: seq<Placed>, notes: seq<Note>) {
    && before <= out && Bytes(out[|before|..]) == EncodeAll(notes)
    && if notes == [] then out == before else |out| > |before| && out[|before|].at == start
  }

  lemma WroteOne(before: seq<Placed>, start: nat, mid: seq<Placed>, out: seq<Placed>, notes: seq<Note>, n: Note)
    requires Wrote(before, start, mid, notes) && mid <= out && Bytes(out[|mid|..]) == Encode(n)
    requires |out| > |mid| && out[|mid|].at == start + Size(notes)
    ensures Wrote(before, start, out, notes + [n]) && Size(notes + [n]) == Size(notes) + NoteSize(n)
  {
    hide Encode, Bytes, NoteSize;
    BytesThen(before, mid, out);
    EncodeAppend(notes, [n]);
    assert [n][1..] == [] && EncodeAll([]) == [] && EncodeAll([n]) == Encode(n) + EncodeAll([n][1..]);
    SizeAppend(notes, [n]);
    SizeOne(n);
  }

  lemma WroteNothing(out: seq<Placed>, start: nat)
    ensures Wrote(out, start, out, [])
  {
    assert out[|out|..] == [];
  }

  /** writenote after `notes` have been written */
  method WriteNext(d: Dump, n: Note, ghost before: seq<Placed>, ghost start: nat, ghost notes: seq<Note>)
    requires d.pos % 4 == 0 && Wrote(before, start, d.out, notes) && d.pos == start + Size(notes)
    modifies d
    ensures d.pos % 4 == 0 && Wrote(before, start, d.out, notes + [n]) && d.pos == start + Size(notes + [n])
  {
    hide Wrote, Size, Encode, NoteSize, Bytes;
    ghost var mid := d.out;
    WriteNote(d, n);
    WroteOne(before, start, mid, d.out, notes, n);
  }

  method WriteProcess(d: Dump, p: Process, ghost before: seq<Placed>, ghost start: nat, ghost notes: seq<Note>)
    requires d.pos % 4 == 0 && Wrote(before, start, d.out, notes) && d.pos == start + Size(notes)
    modifies d
    ensures d.pos % 4 == 0 && Wrote(before, start, d.out, notes + ProcessNotes(p)) && d.pos == start + Size(notes + ProcessNotes(p))
  {
    hide Wrote, Size;
    ghost var n := notes;
    WriteNext(d, p.psinfo, before, start, n);
    n := n + [p.psinfo];
    WriteNext(d, p.signote, before, start, n);
    n := n + [p.signote];
    WriteNext(d, p.auxv, before, start, n);
    n := n + [p.auxv];
    if p.files.Some? {
      WriteNext(d, p.files.v, before, start, n);
      n := n + [p.files.v];
    }
    assert n == notes + ProcessNotes(p);
  }

  /** The notes of a thread after its first one. */
  method WriteRest(d: Dump, a: seq<Option<Note>>, room: nat, ghost before: seq<Placed>, ghost start: nat, ghost notes: seq<Note>)
    requires 1 <= room == |a| && d.pos % 4 == 0 && Wrote(before, start, d.out, notes) && d.pos == start + Size(notes)
    modifies d
    ensures d.pos % 4 == 0 && Wrote(before, start, d.out, notes + Present(a[1..])) && d.pos == start + Size(notes + Present(a[1..]))
  {
    hide Wrote, Size;
    var i := 1;
    assert a[1..1] == [] && notes + [] == notes;
    while i < room
      invariant 1 <= i <= room && d.pos % 4 == 0
      invariant Wrote(before, start, d.out, notes + Present(a[1..i])) && d.pos == start + Size(notes + Present(a[1..i]))
    {
      PresentStep(notes, a, i);
      if a[i].Some? { WriteNext(d, a[i].v, before, start, notes + Present(a[1..i])); }
      i := i + 1;
    }
    assert a[1..room] == a[1..];
  }

  lemma PresentStep(notes: seq<Note>, a: seq<Option<Note>>, i: nat)
    requires 1 <= i < |a|
    ensures notes + Present(a[1..i + 1]) == if a[i].Some? then notes + Present(a[1..i]) + [a[i].v] else notes + Present(a[1..i])
  {
    assert a[1..i + 1] == a[1..i] + [a[i]];
    PresentAppend(a[1..i], [a[i]]);
    assert [a[i]][1..] == [] && Present([]) == [];
  }

  /** write_note_info: all notes collected, in that order, and nothing else */
  method WriteNoteInfo(d: Dump, threads: Threads, p: Process, room: nat)
    requires threads != [] && Started(threads) && d.pos % 4 == 0
    requires forall t {:trigger threads[t]} :: 0 <= t < |threads| ==> |threads[t]| == room
    modifies d
    ensures Wrote(old(d.out), old(d.pos), d.out, InOrder(threads, p)) && d.pos == old(d.pos) + Size(InOrder(threads, p))
  {
    hide Wrote, Size, Present, ProcessNotes;
    ghost var before, start, done := d.out, d.pos, [];
    WroteNothing(d.out, start);
    SizeNone();
    var first := true;
    for t := 0 to |threads|
      invariant d.pos % 4 == 0 && first == (t == 0) && Wrote(before, start, d.out, done) && d.pos == start + Size(done)
      invariant done == if t == 0 then [] else NotesUpTo(threads, p, t)
    {
      WriteNext(d, threads[t][0].v, before, start, done);
      ghost var n := done + [threads[t][0].v];
      if first {
        WriteProcess(d, p, before, start, n);
        n := n + ProcessNotes(p);
      }
      WriteRest(d, threads[t], room, before, start, n);
      n := n + Present(threads[t][1..]);
      NextThread(threads, p, t, done, n);
      done := n;
      first := false;
    }
    assert threads[1..][..|threads| - 1] == threads[1..];
  }

  /** The notes of the first `t` threads and of the process, in that order. */
  ghost function NotesUpTo(threads: Threads, p: Process, t: nat): seq<Note>
    requires Started(threads) && 1 <= t <= |threads|
  {
    [threads[0][0].v] + ProcessNotes(p) + Present(threads[0][1..]) + AllPresent(threads[1..][..t - 1])
  }

  lemma NextThread(threads: Threads, p: Process, t: nat, done: seq<Note>, n: seq<Note>)
    requires Started(threads) && t < |threads|
    requires done == if t == 0 then [] else NotesUpTo(threads, p, t)
    requires n == done + [threads[t][0].v] + (if t == 0 then ProcessNotes(p) else []) + Present(threads[t][1..])
    ensures n == NotesUpTo(threads, p, t + 1)
  {
    hide ProcessNotes, Present, AllPresent;
    var head := [threads[0][0].v] + ProcessNotes(p) + Present(threads[0][1..]);
    if t == 0 {
      assert threads[1..][..0] == [];
      NoThreads();
    } else {
      PresentHead(threads[t]);
      AllPresentStep(threads[1..], t - 1);
      Tail(head, AllPresent(threads[1..][..t - 1]), [threads[t][0].v], Present(threads[t][1..]));
    }
  }

  lemma Tail(a: seq<Note>, b: seq<Note>, c: seq<Note>, d: seq<Note>)
    ensures (a + b) + c + [] + d == a + (b + (c + d))
  {
  }

  lemma NoThreads()
    ensures AllPresent([]) == []
  {
  }

  lemma PresentHead(a: seq<Option<Note>>)
    requires a != [] && a[0].Some?
    ensures Present(a) == [a[0].v] + Present(a[1..])
  {
  }
}
