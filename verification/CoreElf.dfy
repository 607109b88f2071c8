/** The program headers of a core file as tests/11-coredump/parse-core.c walks them. */
module CoreElf {
  import opened Words
  import opened CoreNotes

  /** The number of width bytes at offset o, most significant byte first. */
  function Field(b: Bytes, o: nat, width: nat): (v: nat)
    requires o + width <= |b|
    ensures v < Modulus(width)
    decreases width
  {
    if width == 0 then 0 else Field(b, o, width - 1) * 0x100 + b[o + width - 1]
  }

  function Modulus(width: nat): (m: nat)
    ensures m > 0
  {
    if width == 0 then 1 else 0x100 * Modulus(width - 1)
  }

  /** Where the fields of the ELF header and of a program header are, and how wide offsets
      and sizes are. */
  datatype Layout = Layout(machine: nat, phoff: nat, phentsize: nat, phnum: nat, entry: nat, offset: nat, filesz: nat, width: nat)

  /** ELF header and program header of the 32-bit class, for EM_PPC. */
  const LAYOUT32: Layout := Layout(20, 28, 42, 44, 32, 4, 16, 4)
  /** ELF header and program header of the 64-bit class, for EM_PPC64. */
  const LAYOUT64: Layout := Layout(21, 32, 54, 56, 56, 8, 32, 8)

  const MACHINE_AT: nat := 18
  /** The size of the larger ELF header. */
  const MIN_FILE: nat := 64

  /** What a program header says: the type of the segment, where it begins, and its size. */
  datatype Segment = Segment(kind: nat, offset: nat, size: nat)

  predicate Known(l: Layout) { l == LAYOUT32 || l == LAYOUT64 }

  /** The two checks of a program header; the sum wraps around. */
  predicate Accepted(h: Segment, fileSize: nat, l: Layout) {
    h.offset <= fileSize && (h.offset + h.size) % Modulus(l.width) <= fileSize
  }

  ghost predicate Inside(h: Segment, fileSize: nat) {
    h.offset + h.size <= fileSize
  }

  function HeaderAt(b: Bytes, at: nat, l: Layout): (h: Segment)
    requires Known(l) && at + l.entry <= |b|
    ensures h.offset < Modulus(l.width) && h.size < Modulus(l.width)
  {
    Segment(Field(b, at, 4), Field(b, at + l.offset, l.width), Field(b, at + l.filesz, l.width))
  }

  /** The checks before the loop. */
  predicate TableOk(b: Bytes, l: Layout)
    requires Known(l) && |b| >= MIN_FILE
  {
    var phoff, size, num := Field(b, l.phoff, l.width), Field(b, l.phentsize, 2), Field(b, l.phnum, 2);
    Field(b, MACHINE_AT, 2) == l.machine && phoff < |b| && size == l.entry && phoff + size * num <= |b|
  }

  function HeaderOffset(b: Bytes, l: Layout, i: nat): nat
    requires Known(l) && |b| >= MIN_FILE
  {
    Field(b, l.phoff, l.width) + i * l.entry
  }

  /** What the loop returns from header i on, and the segments that it hands on. */
  ghost function Scan(b: Bytes, l: Layout, i: nat, verdict: Segment -> int): (r: (int, seq<Segment>))
    requires Known(l) && |b| >= MIN_FILE && TableOk(b, l)
    decreases Field(b, l.phnum, 2) - i
  {
    if i >= Field(b, l.phnum, 2) then (0, [])
    else
      HeaderInFile(b, l, i);
      var h := HeaderAt(b, HeaderOffset(b, l, i), l);
      if !Accepted(h, |b|, l) || verdict(h) < 0 then (-1, if Accepted(h, |b|, l) then [h] else [])
      else if verdict(h) == 0 then (0, [h])
      else var r := Scan(b, l, i + 1, verdict); (r.0, [h] + r.1)
  }

  /** Every program header that is read lies inside the file. */
  lemma HeaderInFile(b: Bytes, l: Layout, i: nat)
    requires Known(l) && |b| >= MIN_FILE && TableOk(b, l) && i < Field(b, l.phnum, 2)
    ensures HeaderOffset(b, l, i) + l.entry <= |b|
  {
    var num := Field(b, l.phnum, 2);
    assert (i + 1) * l.entry <= num * l.entry;
  }

  /** The checks of parse_elf_32 and parse_elf_64, which differ only in the layout, before
      their loops. */
  method CheckTable(b: Bytes, l: Layout) returns (ok: bool)
    requires Known(l) && MIN_FILE <= |b| < 0x8000_0000
    ensures ok == TableOk(b, l)
  {
    if Field(b, MACHINE_AT, 2) != l.machine {
      return false;
    }
    var phoff := Field(b, l.phoff, l.width);
    if phoff >= |b| {
      return false;
    }
    if Field(b, l.phentsize, 2) != l.entry {
      return false;
    }
    var phnum := Field(b, l.phnum, 2);
    TableSum(b, l, phnum);
    return (phoff + l.entry * phnum) % Modulus(l.width) <= |b|;
  }

  /** Program header i, and whether it passes its two checks. */
  method ReadHeader(b: Bytes, l: Layout, i: nat) returns (ok: bool, h: Segment)
    requires Known(l) && |b| >= MIN_FILE && TableOk(b, l) && i < Field(b, l.phnum, 2)
    ensures HeaderOffset(b, l, i) + l.entry <= |b| && h == HeaderAt(b, HeaderOffset(b, l, i), l)
            && ok == Accepted(h, |b|, l)
  {
    HeaderInFile(b, l, i);
    h := HeaderAt(b, HeaderOffset(b, l, i), l);
    if h.offset > |b| {
      return false, h;
    }
    if (h.offset + h.size) % Modulus(l.width) > |b| {
      return false, h;
    }
    return true, h;
  }

  /** parse_elf_32 and parse_elf_64.  The verdict stands for whatever parse_section answers;
      handed is what that is called with. */
  method ParseTable(b: Bytes, l: Layout, verdict: Segment -> int) returns (rc: int, handed: seq<Segment>)
    requires Known(l) && MIN_FILE <= |b| < 0x8000_0000
    ensures if TableOk(b, l) then (rc, handed) == Scan(b, l, 0, verdict) else rc == -1 && handed == []
  {
    var ok := CheckTable(b, l);
    if !ok {
      return -1, [];
    }
    rc, handed := ParseHeaders(b, l, Field(b, l.phnum, 2), verdict);
  }

  /** The answer so far, and what the headers from i on will add to it. */
  ghost predicate Continues(all: (int, seq<Segment>), handed: seq<Segment>, b: Bytes, l: Layout, i: nat,
      verdict: Segment -> int)
    requires Known(l) && |b| >= MIN_FILE && TableOk(b, l)
  {
    var r := Scan(b, l, i, verdict); all.0 == r.0 && all.1 == handed + r.1
  }

  /** One program header. */
  method Visit(b: Bytes, l: Layout, i: nat, verdict: Segment -> int, handed: seq<Segment>,
      ghost all: (int, seq<Segment>))
    returns (done: bool, rc: int, handed': seq<Segment>)
    requires Known(l) && |b| >= MIN_FILE && TableOk(b, l) && i < Field(b, l.phnum, 2)
             && Continues(all, handed, b, l, i, verdict)
    ensures if done then all == (rc, handed') else Continues(all, handed', b, l, i + 1, verdict)
  {
    var ok, h := ReadHeader(b, l, i);
    ghost var next := Scan(b, l, i + 1, verdict).1;
    assert handed + ([h] + next) == (handed + [h]) + next;
    ghost var none: seq<Segment> := [];
    assert handed + none == handed;
    done, rc, handed' := true, -1, handed;
    if !ok {
      return;
    }
    handed' := handed + [h];
    var v := verdict(h);
    if v < 0 {
      return;
    }
    rc := 0;
    if v == 0 {
      return;
    }
    done := false;
  }

  /** The loop over the program headers. */
  method ParseHeaders(b: Bytes, l: Layout, phnum: nat, verdict: Segment -> int) returns (rc: int, handed: seq<Segment>)
    requires Known(l) && |b| >= MIN_FILE && TableOk(b, l) && phnum == Field(b, l.phnum, 2)
    ensures (rc, handed) == Scan(b, l, 0, verdict)
  {
    handed := [];
    ghost var all := Scan(b, l, 0, verdict);
    assert handed + all.1 == all.1;
    var i := 0;
    while i < phnum
      invariant 0 <= i <= phnum && Continues(all, handed, b, l, i, verdict)
    {
      var done;
      done, rc, handed := Visit(b, l, i, verdict, handed, all);
      if done {
        return;
      }
      i := i + 1;
    }
    ghost var none: seq<Segment> := [];
    assert handed + none == handed;
    rc := 0;
  }

  lemma Moduli()
    ensures Modulus(2) == 0x1_0000 && Modulus(4) == 0x1_0000_0000 && Modulus(8) == 0x1_0000_0000_0000_0000
  {
    assert Modulus(2) == 0x1_0000 && Modulus(4) == 0x1_0000_0000 && Modulus(6) == 0x1_0000_0000_0000;
  }

  /** The sum in the check of the table does not wrap around. */
  lemma TableSum(b: Bytes, l: Layout, phnum: nat)
    requires Known(l) && |b| < 0x8000_0000 && MIN_FILE <= |b| && Field(b, l.phoff, l.width) < |b| && phnum < Modulus(2)
    ensures (Field(b, l.phoff, l.width) + l.entry * phnum) % Modulus(l.width) == Field(b, l.phoff, l.width) + l.entry * phnum
  {
    Moduli();
  }

  // ---------- bounds ----------

  ghost predicate AllAccepted(q: seq<Segment>, fileSize: nat, l: Layout) {
    forall h {:trigger h in q} :: h in q ==> Accepted(h, fileSize, l) && h.offset < Modulus(l.width) && h.size < Modulus(l.width)
  }

  /** Every segment that is handed on has passed the two checks. */
  lemma {:induction false} ScanAccepts(b: Bytes, l: Layout, i: nat, verdict: Segment -> int)
    requires Known(l) && |b| >= MIN_FILE && TableOk(b, l)
    ensures var r := Scan(b, l, i, verdict); (r.0 == 0 || r.0 == -1) && AllAccepted(r.1, |b|, l)
    decreases Field(b, l.phnum, 2) - i
  {
    if i < Field(b, l.phnum, 2) {
      HeaderInFile(b, l, i);
      var h := HeaderAt(b, HeaderOffset(b, l, i), l);
      if Accepted(h, |b|, l) && verdict(h) > 0 {
        ScanAccepts(b, l, i + 1, verdict);
        AcceptedCons(h, Scan(b, l, i + 1, verdict).1, |b|, l);
      }
    }
  }

  lemma AcceptedCons(h: Segment, q: seq<Segment>, fileSize: nat, l: Layout)
    requires AllAccepted(q, fileSize, l) && Accepted(h, fileSize, l) && h.offset < Modulus(l.width)
             && h.size < Modulus(l.width)
    ensures AllAccepted([h] + q, fileSize, l)
  {
  }

  /** A segment that has passed the checks lies inside the file exactly when the sum of its
      offset and size does not wrap around; its size then fits a signed 32-bit number. */
  lemma InsideIff(h: Segment, fileSize: nat, l: Layout)
    requires Known(l) && fileSize < 0x8000_0000 && h.offset < Modulus(l.width) && h.size < Modulus(l.width)
    requires Accepted(h, fileSize, l)
    ensures Inside(h, fileSize) <==> h.offset + h.size < Modulus(l.width)
    ensures Inside(h, fileSize) ==> h.size < 0x8000_0000
  {
    Moduli();
  }

  // ---------- a file whose segment is not inside it ----------

  lemma TwoBytes(b: Bytes, o: nat)
    requires o + 2 <= |b|
    ensures Field(b, o, 2) == b[o] as int * 0x100 + b[o + 1] as int
  {
    assert Field(b, o, 1) == b[o];
  }

  lemma FourBytes(b: Bytes, o: nat)
    requires o + 4 <= |b|
    ensures Field(b, o, 4) == Field(b, o, 2) * 0x1_0000 + Field(b, o + 2, 2)
  {
    TwoBytes(b, o + 2);
    assert Field(b, o, 3) == Field(b, o, 2) * 0x100 + b[o + 2];
  }

  lemma EightBytes(b: Bytes, o: nat)
    requires o + 8 <= |b|
    ensures Field(b, o, 8) == Field(b, o, 4) * 0x1_0000_0000 + Field(b, o + 4, 4)
  {
    FourBytes(b, o + 4);
    TwoBytes(b, o + 4);
    TwoBytes(b, o + 6);
    assert Field(b, o, 6) == Field(b, o, 5) * 0x100 + b[o + 5];
    assert Field(b, o, 7) == Field(b, o, 6) * 0x100 + b[o + 6];
  }

  /** An ELF header, at byte 64 one program header of type PT_NOTE with offset 1 and the
      largest size there is, and nothing else. */
  function WrappingByte(l: Layout, i: nat): Byte {
    if i == 0 then 0x7f else if i == 1 then 0x45 else if i == 2 then 0x4c else if i == 3 then 0x46
    else if i == 4 then (if l == LAYOUT32 then 1 else 2)
    else if i == 5 then 2
    else if i == 6 then 1
    else if i == MACHINE_AT + 1 then (if l == LAYOUT32 then 20 else 21)
    else if i == l.phoff + l.width - 1 then 64
    else if i == l.phentsize + 1 then (if l == LAYOUT32 then 32 else 56)
    else if i == l.phnum + 1 then 1
    else if i == 64 + 3 then 4
    else if i == 64 + l.offset + l.width - 1 then 1
    else if 64 + l.filesz <= i < 64 + l.filesz + l.width then 0xff
    else 0
  }

  function WrappingFile(l: Layout): (b: Bytes)
    requires Known(l)
    ensures |b| == 64 + l.entry
  {
    seq(64 + l.entry, i requires 0 <= i => WrappingByte(l, i))
  }

  lemma WrappingTable(l: Layout)
    requires Known(l)
    ensures var b := WrappingFile(l);
            && IdentOk(b) && LayoutOf(b) == l && TableOk(b, l) && Field(b, l.phnum, 2) == 1
            && HeaderOffset(b, l, 0) == 64
  {
    var b := WrappingFile(l);
    TwoBytes(b, MACHINE_AT);
    TwoBytes(b, l.phentsize);
    TwoBytes(b, l.phnum);
    WrappingField(b, l.phoff, l, 64);
  }

  /** A field of seven or three zeros and a last byte. */
  lemma WrappingField(b: Bytes, o: nat, l: Layout, v: Byte)
    requires Known(l) && o + l.width <= |b| && b[o + l.width - 1] == v
             && forall i :: o <= i < o + l.width - 1 ==> b[i] == 0
    ensures Field(b, o, l.width) == v
  {
    TwoBytes(b, o);
    TwoBytes(b, o + 2);
    FourBytes(b, o);
    if l.width == 8 {
      TwoBytes(b, o + 4);
      TwoBytes(b, o + 6);
      FourBytes(b, o + 4);
      EightBytes(b, o);
    }
  }

  /** The largest number a field can hold. */
  lemma LargestField(b: Bytes, o: nat, l: Layout)
    requires Known(l) && o + l.width <= |b| && forall i :: o <= i < o + l.width ==> b[i] == 0xff
    ensures Field(b, o, l.width) == Modulus(l.width) - 1
  {
    Moduli();
    TwoBytes(b, o);
    TwoBytes(b, o + 2);
    FourBytes(b, o);
    if l.width == 8 {
      TwoBytes(b, o + 4);
      TwoBytes(b, o + 6);
      FourBytes(b, o + 4);
      EightBytes(b, o);
    }
  }

  lemma WrappingKind(l: Layout)
    requires Known(l)
    ensures Field(WrappingFile(l), 64, 4) == 4
  {
    var b := WrappingFile(l);
    TwoBytes(b, 64);
    TwoBytes(b, 66);
    FourBytes(b, 64);
  }

  lemma WrappingOffset(l: Layout)
    requires Known(l)
    ensures Field(WrappingFile(l), 64 + l.offset, l.width) == 1
  {
    WrappingField(WrappingFile(l), 64 + l.offset, l, 1);
  }

  lemma WrappingSize(l: Layout)
    requires Known(l)
    ensures Field(WrappingFile(l), 64 + l.filesz, l.width) == Modulus(l.width) - 1
  {
    LargestField(WrappingFile(l), 64 + l.filesz, l);
  }

  lemma WrappingHeader(l: Layout)
    requires Known(l)
    ensures HeaderAt(WrappingFile(l), 64, l) == Segment(4, 1, Modulus(l.width) - 1)
  {
    WrappingKind(l);
    WrappingOffset(l);
    WrappingSize(l);
  }

  /** A table of one header. */
  lemma ScanOne(b: Bytes, l: Layout, h: Segment, verdict: Segment -> int)
    requires Known(l) && |b| >= MIN_FILE && TableOk(b, l) && Field(b, l.phnum, 2) == 1
    requires var at := HeaderOffset(b, l, 0); at + l.entry <= |b| && HeaderAt(b, at, l) == h && Accepted(h, |b|, l)
    ensures Scan(b, l, 0, verdict).1 == [h]
  {
    if verdict(h) > 0 { assert Scan(b, l, 1, verdict) == (0, []); }
  }

  /** For either class there is a file that passes all checks, and whose only segment, which
      is handed on, is not inside it: the sum of its offset and its size wraps around. */
  lemma WrapAround(l: Layout, verdict: Segment -> int)
    requires Known(l)
    ensures var b, h := WrappingFile(l), Segment(4, 1, Modulus(l.width) - 1);
            && IdentOk(b) && LayoutOf(b) == l && TableOk(b, l)
            && Scan(b, l, 0, verdict).1 == [h] && !Inside(h, |b|)
  {
    Moduli();
    WrappingTable(l);
    WrappingHeader(l);
    ScanOne(WrappingFile(l), l, Segment(4, 1, Modulus(l.width) - 1), verdict);
  }

  lemma HandedInside(b: Bytes, l: Layout, verdict: Segment -> int)
    requires Known(l) && MIN_FILE <= |b| < 0x8000_0000
    ensures TableOk(b, l) ==>
              var (rc, handed) := Scan(b, l, 0, verdict);
              && (rc == 0 || rc == -1)
              && forall h :: h in handed ==>
                   (Inside(h, |b|) <==> h.offset + h.size < Modulus(l.width)) && (Inside(h, |b|) ==> h.size < 0x8000_0000)
  {
    if TableOk(b, l) {
      ScanAccepts(b, l, 0, verdict);
      forall h | h in Scan(b, l, 0, verdict).1
        ensures (Inside(h, |b|) <==> h.offset + h.size < Modulus(l.width)) && (Inside(h, |b|) ==> h.size < 0x8000_0000)
      {
        InsideIff(h, |b|, l);
      }
    }
  }

  // ---------- parse_elf ----------

  function LayoutOf(b: Bytes): Layout
    requires |b| >= MIN_FILE
  {
    if b[4] == 1 then LAYOUT32 else LAYOUT64
  }

  /** The magic number, the data encoding, the version and the class. */
  predicate IdentOk(b: Bytes)
    requires |b| >= MIN_FILE
  {
    b[0] == 0x7f && b[1] == 0x45 && b[2] == 0x4c && b[3] == 0x46 && b[5] == 2 && b[6] == 1 && (b[4] == 1 || b[4] == 2)
  }

  method CheckIdent(b: Bytes) returns (ok: bool, l: Layout)
    requires |b| >= MIN_FILE
    ensures ok == IdentOk(b) && (ok ==> l == LayoutOf(b))
  {
    ok, l := false, LAYOUT32;
    if b[0] != 0x7f || b[1] != 0x45 || b[2] != 0x4c || b[3] != 0x46 {
      return;
    }
    if b[5] != 2 {
      return;
    }
    if b[6] != 1 {
      return;
    }
    if b[4] == 1 {
      return true, LAYOUT32;
    } else if b[4] == 2 {
      return true, LAYOUT64;
    }
  }

  /** parse_elf: only a file with a proper header gets past the first checks, and a segment
      that is then handed on lies inside the file exactly when the sum of its offset and its
      size does not wrap around. */
  method ParseElf(b: Bytes, verdict: Segment -> int) returns (rc: int, handed: seq<Segment>)
    requires MIN_FILE <= |b| < 0x8000_0000
    ensures rc == 0 || rc == -1
    ensures if IdentOk(b) && TableOk(b, LayoutOf(b)) then (rc, handed) == Scan(b, LayoutOf(b), 0, verdict) else rc == -1 && handed == []
    ensures forall h :: h in handed ==>
              && (Inside(h, |b|) <==> h.offset + h.size < Modulus(LayoutOf(b).width))
              && (Inside(h, |b|) ==> h.size < 0x8000_0000)
  {
    var ok, l := CheckIdent(b);
    if !ok {
      return -1, [];
    }
    rc, handed := ParseTable(b, l, verdict);
    HandedInside(b, l, verdict);
  }

  // ---------- the bytes of the headers ----------

  /** The numbers of two and of eight bytes at o, most significant byte first. */
  function Two(b: Bytes, o: nat): nat
    requires o + 2 <= |b|
  {
    b[o] as int * 0x100 + b[o + 1]
  }

  function Eight(b: Bytes, o: nat): nat
    requires o + 8 <= |b|
  {
    Four(b, o) * 0x1_0000_0000 + Four(b, o + 4)
  }

  lemma FieldIs(b: Bytes, o: nat)
    ensures o + 2 <= |b| ==> Field(b, o, 2) == Two(b, o)
    ensures o + 4 <= |b| ==> Field(b, o, 4) == Four(b, o)
    ensures o + 8 <= |b| ==> Field(b, o, 8) == Eight(b, o)
  {
    if o + 2 <= |b| { TwoBytes(b, o); }
    if o + 4 <= |b| { FourIs(b, o); }
    if o + 8 <= |b| {
      FourIs(b, o + 4);
      EightBytes(b, o);
    }
  }

  lemma FourIs(b: Bytes, o: nat)
    requires o + 4 <= |b|
    ensures Field(b, o, 4) == Four(b, o)
  {
    TwoBytes(b, o);
    TwoBytes(b, o + 2);
    FourBytes(b, o);
  }

  /** Where the fields of a 32-bit program header are: type, offset and file size. */
  lemma HeaderBytes32(b: Bytes, at: nat)
    requires at + 32 <= |b|
    ensures HeaderAt(b, at, LAYOUT32) == Segment(Four(b, at), Four(b, at + 4), Four(b, at + 16))
  {
    FieldIs(b, at);
    FieldIs(b, at + 4);
    FieldIs(b, at + 16);
  }

  lemma HeaderBytes64(b: Bytes, at: nat)
    requires at + 56 <= |b|
    ensures HeaderAt(b, at, LAYOUT64) == Segment(Four(b, at), Eight(b, at + 8), Eight(b, at + 32))
  {
    FieldIs(b, at);
    FieldIs(b, at + 8);
    FieldIs(b, at + 32);
  }

  /** Where the fields of a 32-bit ELF header are, and what they have to be: EM_PPC, a program
      header table inside the file, and headers of 32 bytes. */
  lemma TableBytes32(b: Bytes)
    requires |b| >= 64
    ensures TableOk(b, LAYOUT32) <==>
              Two(b, 18) == 20 && Four(b, 28) < |b| && Two(b, 42) == 32 && Four(b, 28) + 32 * Two(b, 44) <= |b|
    ensures Field(b, LAYOUT32.phnum, 2) == Two(b, 44)
    ensures forall i: nat :: HeaderOffset(b, LAYOUT32, i) == Four(b, 28) + 32 * i
  {
    FieldIs(b, 18);
    FieldIs(b, 28);
    FieldIs(b, 42);
    FieldIs(b, 44);
  }

  lemma TableBytes64(b: Bytes)
    requires |b| >= 64
    ensures TableOk(b, LAYOUT64) <==>
              Two(b, 18) == 21 && Eight(b, 32) < |b| && Two(b, 54) == 56 && Eight(b, 32) + 56 * Two(b, 56) <= |b|
    ensures Field(b, LAYOUT64.phnum, 2) == Two(b, 56)
    ensures forall i: nat :: HeaderOffset(b, LAYOUT64, i) == Eight(b, 32) + 56 * i
  {
    FieldIs(b, 18);
    FieldIs(b, 32);
    FieldIs(b, 54);
    FieldIs(b, 56);
  }

  /** The first bytes of the file: the magic number, the class, most significant byte first,
      version 1. */
  lemma IdentBytes(b: Bytes)
    requires |b| >= 64
    ensures IdentOk(b) <==> b[..4] == [0x7f, 0x45, 0x4c, 0x46] && b[4] in {1, 2} && b[5] == 2 && b[6] == 1
    ensures LayoutOf(b) == if b[4] == 1 then LAYOUT32 else LAYOUT64
  {
    var q := b[..4];
    assert q[0] == b[0] && q[1] == b[1] && q[2] == b[2] && q[3] == b[3];
  }

  /** A program header passes its checks when it begins inside the file and its end, computed
      with 32 or with 64 bits, is not behind the end of the file. */
  lemma AcceptedBytes(h: Segment, fileSize: nat)
    ensures Accepted(h, fileSize, LAYOUT32) <==>
              h.offset <= fileSize && (h.offset + h.size) % 0x1_0000_0000 <= fileSize
    ensures Accepted(h, fileSize, LAYOUT64) <==>
              h.offset <= fileSize && (h.offset + h.size) % 0x1_0000_0000_0000_0000 <= fileSize
  {
    Moduli();
  }
}
