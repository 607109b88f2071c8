/** The note sections of core dumps (System V ABI, chapter 5, "Note Section") as
    tests/11-coredump/parse-core.c reads them. */
module CoreNotes {
  import opened Hiding
  import opened Words

  type Bytes = seq<Byte>

  /** The largest size that pad, which computes with 32-bit signed numbers, can round up. */
  const MAX_SIZE: nat := 0x7fff_fffc
  const HEADER: nat := 12

  datatype Note = Note(kind: nat, name: Bytes, desc: Bytes)

  // ---------- the format ----------

  function Pad(x: nat): (p: nat)
    ensures x <= p < x + 4 && p % 4 == 0
  {
    (x + 3) / 4 * 4
  }

  function Number(a: int, b: int, c: int, d: int): int {
    a * 0x1000000 + b * 0x10000 + c * 0x100 + d
  }

  /** The 32-bit number, most significant byte first, at offset o. */
  function U32(b: Bytes, o: nat): (v: nat)
    requires o + 4 <= |b|
    ensures v < WORD
  {
    Number(b[o], b[o + 1], b[o + 2], b[o + 3])
  }

  function PutU32(v: nat): (b: Bytes)
    requires v < WORD
    ensures |b| == 4
  {
    [v / 0x1000000, v / 0x10000 % 0x100, v / 0x100 % 0x100, v % 0x100]
  }

  lemma NumberOfBytes(v: nat)
    requires v < WORD
    ensures Number(v / 0x1000000, v / 0x10000 % 0x100, v / 0x100 % 0x100, v % 0x100) == v
  {
    var a := v / 0x100;
    var b := a / 0x100;
    assert v / 0x10000 == b && v / 0x1000000 == b / 0x100;
    assert v == 0x100 * a + v % 0x100 && a == 0x100 * b + a % 0x100 && b == 0x100 * (b / 0x100) + b % 0x100;
  }

  /** A number that has been written is read back. */
  lemma ReadU32(b: Bytes, o: nat, v: nat)
    requires v < WORD && o + 4 <= |b| && b[o..o + 4] == PutU32(v)
    ensures U32(b, o) == v
  {
    NumberOfBytes(v);
    var p := b[o..o + 4];
    assert b[o] == p[0] && b[o + 1] == p[1] && b[o + 2] == p[2] && b[o + 3] == p[3];
  }

  function Zeros(n: nat): (b: Bytes)
    ensures |b| == n
  {
    var zero: Byte := 0;
    seq(n, _ => zero)
  }

  function Padded(b: Bytes): (r: Bytes)
    ensures |r| == Pad(|b|) && r[..|b|] == b
  {
    b + Zeros(Pad(|b|) - |b|)
  }

  /** A note as a core dump holds it. */
  function Written(n: Note): (b: Bytes)
    requires n.kind < WORD && |n.name| < WORD && |n.desc| < WORD
    ensures |b| == HEADER + Pad(|n.name|) + Pad(|n.desc|)
  {
    PutU32(|n.name|) + PutU32(|n.desc|) + PutU32(n.kind) + Padded(n.name) + Padded(n.desc)
  }

  ghost predicate Writable(notes: seq<Note>) {
    forall i {:trigger notes[i]} :: 0 <= i < |notes| ==> notes[i].kind < WORD && |notes[i].name| < WORD && |notes[i].desc| < WORD
  }

  ghost function WrittenAll(notes: seq<Note>): Bytes
    requires Writable(notes)
  {
    if notes == [] then [] else
      assert notes[0].kind < WORD;
      Written(notes[0]) + WrittenAll(notes[1..])
  }

  // ---------- reading it back ----------

  function NameSize(b: Bytes, o: nat): nat
    requires o + HEADER <= |b|
  {
    U32(b, o)
  }

  function DescSize(b: Bytes, o: nat): nat
    requires o + HEADER <= |b|
  {
    U32(b, o + 4)
  }

  function Kind(b: Bytes, o: nat): nat
    requires o + HEADER <= |b|
  {
    U32(b, o + 8)
  }

  /** Where the note after the one at o begins. */
  function After(b: Bytes, o: nat): (p: nat)
    requires o + HEADER <= |b|
    ensures p >= o + HEADER
  {
    o + HEADER + Pad(NameSize(b, o)) + Pad(DescSize(b, o))
  }

  /** The note at o, which lies inside b. */
  function NoteAt(b: Bytes, o: nat): Note
    requires o + HEADER <= |b| && After(b, o) <= |b|
  {
    var name := o + HEADER;
    var desc := name + Pad(NameSize(b, o));
    Note(Kind(b, o), b[name..name + NameSize(b, o)], b[desc..desc + DescSize(b, o)])
  }

  /** What the parser may be given: no header it comes to is cut short by the end of the
      section, and the sizes in it are such that pad does not overflow. */
  ghost predicate Readable(b: Bytes, o: nat)
    decreases if o <= |b| then |b| - o else 0
  {
    o >= |b| || (o + HEADER <= |b| && NameSize(b, o) <= MAX_SIZE && DescSize(b, o) <= MAX_SIZE && (After(b, o) <= |b| ==> Readable(b, After(b, o))))
  }

  /** The notes from o on, up to the end or to one that extends past the end. */
  ghost function NotesFrom(b: Bytes, o: nat): seq<Note>
    decreases if o <= |b| then |b| - o else 0
  {
    if o + HEADER > |b| || After(b, o) > |b| then [] else [NoteAt(b, o)] + NotesFrom(b, After(b, o))
  }

  /** All of b is notes. */
  ghost predicate Whole(b: Bytes, o: nat)
    decreases if o <= |b| then |b| - o else 0
  {
    o >= |b| || (o + HEADER <= |b| && After(b, o) <= |b| && Whole(b, After(b, o)))
  }

  lemma Middle(before: Bytes, mid: Bytes, rest: Bytes)
    ensures (before + (mid + rest))[|before|..|before| + |mid|] == mid
  {
  }

  /** The header of a note that has been written is read back. */
  lemma ReadNoteHeader(before: Bytes, n: Note, rest: Bytes)
    requires n.kind < WORD && |n.name| < WORD && |n.desc| < WORD
    ensures var b, o := before + (Written(n) + rest), |before|;
            o + HEADER <= |b| && NameSize(b, o) == |n.name| && DescSize(b, o) == |n.desc| && Kind(b, o) == n.kind
  {
    var b, o := before + (Written(n) + rest), |before|;
    var p, q, k := PutU32(|n.name|), PutU32(|n.desc|), PutU32(n.kind);
    var tail := Padded(n.name) + Padded(n.desc) + rest;
    assert Written(n) + rest == p + (q + (k + tail));
    Middle(before, p, q + (k + tail));
    assert b == (before + p) + (q + (k + tail));
    Middle(before + p, q, k + tail);
    assert b == (before + p + q) + (k + tail);
    Middle(before + p + q, k, tail);
    ReadU32(b, o, |n.name|);
    ReadU32(b, o + 4, |n.desc|);
    ReadU32(b, o + 8, n.kind);
  }

  /** Where name and descriptor of a note that has been written are. */
  lemma ReadBodies(before: Bytes, n: Note, rest: Bytes)
    requires n.kind < WORD && |n.name| < WORD && |n.desc| < WORD
    ensures var b, o := before + (Written(n) + rest), |before| + HEADER;
            var d := o + Pad(|n.name|);
            && d + Pad(|n.desc|) + |rest| == |b|
            && b[o..o + |n.name|] == n.name && b[d..d + |n.desc|] == n.desc
  {
    var b := before + (Written(n) + rest);
    var h := PutU32(|n.name|) + PutU32(|n.desc|) + PutU32(n.kind);
    var y, z := Zeros(Pad(|n.name|) - |n.name|), Zeros(Pad(|n.desc|) - |n.desc|);
    Split(before, h, n.name, y, n.desc, z, rest);
    Middle(before + h, n.name, y + (n.desc + (z + rest)));
    Middle(before + h + n.name + y, n.desc, z + rest);
  }

  lemma Split(before: Bytes, h: Bytes, x: Bytes, y: Bytes, w: Bytes, z: Bytes, rest: Bytes)
    ensures var b := before + (h + (x + y) + (w + z) + rest);
            && b == (before + h) + (x + (y + (w + (z + rest))))
            && b == (before + h + x + y) + (w + (z + rest))
  {
    assert h + (x + y) + (w + z) + rest == h + (x + (y + (w + (z + rest))));
  }

  /** A note that has been written is read back, and what follows it begins where it ends. */
  lemma ReadWritten(before: Bytes, n: Note, rest: Bytes)
    requires n.kind < WORD && |n.name| < WORD && |n.desc| < WORD
    ensures var b, o := before + (Written(n) + rest), |before|;
            && o + HEADER <= |b| && After(b, o) == o + |Written(n)| <= |b|
            && NameSize(b, o) == |n.name| && DescSize(b, o) == |n.desc| && NoteAt(b, o) == n
  {
    ReadNoteHeader(before, n, rest);
    ReadBodies(before, n, rest);
  }

  lemma ReadWrittenAt(b: Bytes, o: nat, n: Note, rest: Bytes)
    requires n.kind < WORD && |n.name| < WORD && |n.desc| < WORD
    requires o <= |b| && b[o..] == Written(n) + rest
    ensures o + HEADER <= |b| && After(b, o) == o + |Written(n)| <= |b| && b[After(b, o)..] == rest
    ensures NameSize(b, o) == |n.name| && DescSize(b, o) == |n.desc| && NoteAt(b, o) == n
  {
    assert b[..o] + (Written(n) + rest) == b;
    ReadWritten(b[..o], n, rest);
    Tail(b, o, Written(n), rest);
  }

  lemma Tail(b: Bytes, o: nat, w: Bytes, rest: Bytes)
    requires o <= |b| && b[o..] == w + rest
    ensures o + |w| <= |b| && b[o + |w|..] == rest
  {
    assert b[o + |w|..] == b[o..][|w|..];
  }

  /** w is what b holds from o on.  The bytes come only with `Look`, since the verifier is
      slow where they are in view. */
  ghost predicate HasTail(b: Bytes, o: nat, w: Bytes) {
    o <= |b| && forall k: int {:trigger Look(k)} :: Look(k) ==> b[o..] == w
  }

  /** The first note from o on. */
  lemma Unfolded(b: Bytes, o: nat, n: Note, rest: Bytes) returns (p: nat)
    requires n.kind < WORD && |n.name| <= MAX_SIZE && |n.desc| <= MAX_SIZE && HasTail(b, o, Written(n) + rest)
    ensures HasTail(b, p, rest) && NotesFrom(b, o) == [n] + NotesFrom(b, p)
    ensures (Whole(b, p) ==> Whole(b, o)) && (Readable(b, p) ==> Readable(b, o))
  {
    assert Look(0);
    ReadWrittenAt(b, o, n, rest);
    p := After(b, o);
  }

  lemma WrittenParts(notes: seq<Note>)
    requires notes != [] && Writable(notes) && |WrittenAll(notes)| <= MAX_SIZE
    ensures var n, rest := notes[0], notes[1..];
            && n.kind < WORD && |n.name| <= MAX_SIZE && |n.desc| <= MAX_SIZE && Writable(rest)
            && WrittenAll(notes) == Written(n) + WrittenAll(rest) && |WrittenAll(rest)| <= MAX_SIZE
  {
    var n, rest := notes[0], notes[1..];
    assert n.kind < WORD && |n.name| < WORD && |n.desc| < WORD;
    assert WrittenAll(notes) == Written(n) + WrittenAll(rest);
    assert |WrittenAll(notes)| == |Written(n)| + |WrittenAll(rest)|;
  }

  lemma NothingWritten(b: Bytes, o: nat)
    requires HasTail(b, o, [])
    ensures NotesFrom(b, o) == [] && Whole(b, o) && Readable(b, o)
  {
    assert Look(0);
    assert |b[o..]| == 0;
  }

  lemma {:induction false} ReadAll(b: Bytes, o: nat, notes: seq<Note>)
    requires Writable(notes) && |WrittenAll(notes)| <= MAX_SIZE && HasTail(b, o, WrittenAll(notes))
    ensures NotesFrom(b, o) == notes && Whole(b, o) && Readable(b, o)
    decreases |notes|
  {
    if notes == [] {
      NothingWritten(b, o);
    } else {
      WrittenParts(notes);
      var p := Unfolded(b, o, notes[0], WrittenAll(notes[1..]));
      ReadAll(b, p, notes[1..]);
      assert notes == [notes[0]] + notes[1..];
    }
  }

  /** Reading is the inverse of writing, for every list of notes. */
  lemma RoundTrip(notes: seq<Note>)
    requires Writable(notes) && |WrittenAll(notes)| <= MAX_SIZE
    ensures var b := WrittenAll(notes); NotesFrom(b, 0) == notes && Whole(b, 0) && Readable(b, 0)
  {
    var b := WrittenAll(notes);
    assert b[0..] == b;
    ReadAll(b, 0, notes);
  }

  // ---------- the bytes of a note ----------

  /** A note of type 1 with the name SPU/7/fpcr and a descriptor of three bytes: the sizes of
      name and descriptor, then the type, most significant byte first, then both, filled up
      with zeros. */
  const EXAMPLE: Note := Note(1, [0x53, 0x50, 0x55, 0x2f, 0x37, 0x2f, 0x66, 0x70, 0x63, 0x72, 0], [0xa, 0xb, 0xc])

  const EXAMPLE_BYTES: Bytes :=
    [0, 0, 0, 11, 0, 0, 0, 3, 0, 0, 0, 1,
     0x53, 0x50, 0x55, 0x2f, 0x37, 0x2f, 0x66, 0x70, 0x63, 0x72, 0, 0, 0xa, 0xb, 0xc, 0]

  lemma ExampleHeader()
    ensures PutU32(11) == [0, 0, 0, 11] && PutU32(3) == [0, 0, 0, 3] && PutU32(1) == [0, 0, 0, 1]
  {
  }

  lemma ExamplePadded()
    ensures Padded(EXAMPLE.name) == EXAMPLE.name + [0] && Padded(EXAMPLE.desc) == EXAMPLE.desc + [0]
  {
    assert Zeros(1) == [0];
  }

  lemma ExampleWritten()
    ensures Written(EXAMPLE) == EXAMPLE_BYTES
  {
    ExampleHeader();
    ExamplePadded();
  }

  /** The number of four bytes at o, most significant byte first. */
  function Four(b: Bytes, o: nat): nat
    requires o + 4 <= |b|
  {
    b[o] as int * 0x100_0000 + b[o + 1] as int * 0x1_0000 + b[o + 2] as int * 0x100 + b[o + 3]
  }

  /** Where a note at o has the size of its name, the size of its descriptor, and its type. */
  lemma HeaderWords(b: Bytes, o: nat)
    requires o + 12 <= |b|
    ensures NameSize(b, o) == Four(b, o) && DescSize(b, o) == Four(b, o + 4) && Kind(b, o) == Four(b, o + 8)
  {
  }

  /** The name is behind the header, the descriptor behind the name at the next multiple of
      four, and so is the next note behind the descriptor. */
  lemma NoteBytes(b: Bytes, o: nat, name: nat, desc: nat, d: nat)
    requires o + 12 <= |b| && After(b, o) <= |b| && name == Four(b, o) && desc == Four(b, o + 4)
    requires d == o + 12 + (name + 3) / 4 * 4
    ensures After(b, o) == d + (desc + 3) / 4 * 4 && o + 12 + name <= d && d + desc <= |b|
    ensures NoteAt(b, o) == Note(Four(b, o + 8), b[o + 12..o + 12 + name], b[d..d + desc])
  {
    HeaderWords(b, o);
    assert d == o + HEADER + Pad(NameSize(b, o));
  }
}
