/** What tests/11-coredump/parse-core.c does with the notes it finds. */
module CoreParser {
  import opened Words
  import opened CoreNotes

  // ---------- text ----------

  const SLASH: Byte := 0x2f

  function Ascii(s: string): (b: Bytes)
    requires forall i :: 0 <= i < |s| ==> s[i] < 128 as char
    ensures |b| == |s|
  {
    seq(|s|, i requires 0 <= i < |s| => s[i] as int)
  }

  function Prefix(): Bytes { [0x53, 0x50, 0x55, 0x2f] }  // SPU/

  /** The C string that b holds: the bytes before the first zero. */
  function Text(b: Bytes): (t: Bytes)
    ensures |t| <= |b| && t == b[..|t|] && 0 !in t && (|t| < |b| ==> b[|t|] == 0)
  {
    if b == [] || b[0] == 0 then [] else [b[0]] + Text(b[1..])
  }

  predicate IsDigit(c: Byte) { 0x30 <= c <= 0x39 }

  predicate IsHexDigit(c: Byte) { IsDigit(c) || 0x41 <= c <= 0x46 || 0x61 <= c <= 0x66 }

  // ---------- which notes count ----------

  /** A note of an SPU context. */
  predicate Selected(n: Note) {
    n.kind == 1 && |n.name| >= 5 && n.name[..4] == Prefix()
  }

  /** The name of the note at o ends in a zero, if not in the name itself then in its padding.
      A name that does not would be read on into the descriptor. */
  ghost predicate NameEnds(b: Bytes, o: nat)
    requires o + HEADER <= |b| && After(b, o) <= |b|
  {
    var size := NameSize(b, o);
    0 in NoteAt(b, o).name || (Pad(size) > size && b[o + HEADER + size] == 0)
  }

  /** The names of the SPU notes from o on are C strings. */
  ghost predicate NamesEnd(b: Bytes, o: nat)
    decreases if o <= |b| then |b| - o else 0
  {
    o + HEADER > |b| || After(b, o) > |b| || ((Selected(NoteAt(b, o)) ==> NameEnds(b, o)) && NamesEnd(b, After(b, o)))
  }

  /** A name without a zero that fills its field is no C string. */
  ghost predicate Terminated(notes: seq<Note>) {
    forall i {:trigger notes[i]} :: 0 <= i < |notes| && Selected(notes[i]) ==> 0 in notes[i].name || |notes[i].name| % 4 != 0
  }

  lemma SelectedText(n: Note)
    requires Selected(n)
    ensures |Text(n.name)| >= 4 && Text(n.name)[..4] == Prefix()
  {
    assert forall i :: 0 <= i < 4 ==> n.name[i] == n.name[..4][i];
  }

  // ---------- checking one note ----------

  /** A 64-bit number in hexadecimal, and one byte more. */
  predicate IsHexNote(desc: Bytes) {
    |desc| == 19 && desc[0] == 0x30 && desc[1] == 0x78 && forall i :: 2 <= i < 18 ==> IsHexDigit(desc[i])
  }

  /** A size of 0 means that the size is not checked. */
  datatype Check = Check(file: string, size: nat, hex: bool)

  function Checks(): seq<Check> {
    [Check("regs", 0x800, false), Check("fpcr", 0x10, false), Check("lslr", 0, true), Check("decr", 0, true),
     Check("decr_status", 0, true), Check("mem", 0x40000, false), Check("signal1", 4, false),
     Check("signal1_type", 0, true), Check("signal2", 4, false), Check("signal2_type", 0, true),
     Check("event_mask", 0, true), Check("event_status", 0, true), Check("mbox_info", 4, false),
     Check("ibox_info", 4, false), Check("wbox_info", 0x10, false), Check("dma_info", 0x228, false),
     Check("proxydma_info", 0x118, false), Check("object-id", 0, true), Check("npc", 0, true)]
  }

  lemma ChecksAreAscii(k: nat)
    requires k < |Checks()|
    ensures forall i :: 0 <= i < |Checks()[k].file| ==> Checks()[k].file[i] < 128 as char
  {
  }

  /** The file name of check k. */
  function FileName(k: nat): Bytes
    requires k < |Checks()|
  {
    ChecksAreAscii(k);
    Ascii(Checks()[k].file)
  }

  predicate Passes(k: nat, desc: Bytes)
    requires k < |Checks()|
  {
    var c := Checks()[k];
    (c.size != 0 ==> |desc| == c.size) && (c.hex ==> IsHexNote(desc))
  }

  /** Check k is the first for that file. */
  ghost predicate IsCheckFor(k: int, file: Bytes) {
    0 <= k < |Checks()| && FileName(k) == file && forall j {:trigger FileName(j)} :: 0 <= j < k ==> FileName(j) != file
  }

  /** The contents of a context file in a note are as they have to be; files that are not in
      the table may be anything. */
  ghost predicate FileOk(file: Bytes, desc: Bytes) {
    forall k {:trigger IsCheckFor(k, file)} :: IsCheckFor(k, file) ==> Passes(k, desc)
  }

  /** The name is SPU/, then perhaps a number and a slash, then the file. */
  ghost predicate IsPath(text: Bytes, number: Bytes, file: Bytes) {
    && (text == Prefix() + number + [SLASH] + file || (number == [] && text == Prefix() + file))
    && (forall i {:trigger number[i]} :: 0 <= i < |number| ==> IsDigit(number[i]))
    && SLASH !in file
  }

  ghost predicate NoteOk(n: Note) {
    exists number, file :: IsPath(Text(n.name), number, file) && FileOk(file, n.desc)
  }

  /** The note belongs to the context of that number. */
  ghost predicate FdOk(n: Note, fd: Bytes) {
    SLASH !in fd && exists rest :: Text(n.name) == Prefix() + fd + [SLASH] + rest
  }

  // ---------- what the parser is asked for ----------

  datatype Action = ListNotes | CheckNotes | CheckFd(fd: Bytes) | DumpNote(name: Bytes) | FindExec

  /** A line with the size and the name of a note, or the bytes of a descriptor. */
  datatype Output = Line(size: nat, name: Bytes) | Data(bytes: Bytes)

  /** The note goes by that name, with or without the prefix. */
  predicate Named(n: Note, name: Bytes)
    requires Selected(n)
  {
    SelectedText(n);
    Text(n.name) == name || Text(n.name)[4..] == name
  }

  /** What the parser returns and writes for these notes, after which the section ends, or a
      note follows that extends past its end. */
  ghost function Answer(notes: seq<Note>, broken: bool, action: Action): (r: (int, seq<Output>)) {
    if notes == [] then (if broken || action.DumpNote? then -1 else 0, [])
    else
      var n, rest := notes[0], notes[1..];
      if !Selected(n) then Answer(rest, broken, action)
      else match action
        case ListNotes =>
          SelectedText(n);
          var r := Answer(rest, broken, action);
          (r.0, [Line(|n.desc|, Text(n.name)[4..])] + r.1)
        case CheckNotes => if NoteOk(n) then Answer(rest, broken, action) else (-1, [])
        case CheckFd(fd) => if FdOk(n, fd) then Answer(rest, broken, action) else (-1, [])
        case DumpNote(name) => if Named(n, name) then (0, [Data(n.desc)]) else Answer(rest, broken, action)
        case FindExec => Answer(rest, broken, action)
  }

  // ---------- the code ----------

  method CheckHexNote(desc: Bytes) returns (ok: bool)
    ensures ok == IsHexNote(desc)
  {
    var len := |"0x0123456789abcdef"| + 1;
    if |desc| != len {
      return false;
    }
    if desc[0] != 0x30 || desc[1] != 0x78 {
      return false;
    }
    var i := 2;
    while i < len - 1
      invariant 2 <= i <= len - 1 && forall j :: 2 <= j < i ==> IsHexDigit(desc[j])
    {
      if !IsHexDigit(desc[i]) {
        return false;
      }
      i := i + 1;
    }
    return true;
  }

  /** strrchr for a slash: its last position, or -1. */
  method LastSlash(text: Bytes) returns (p: int)
    ensures -1 <= p < |text| && (p >= 0 ==> text[p] == SLASH) && forall i :: p < i < |text| ==> text[i] != SLASH
  {
    p := |text| - 1;
    while p >= 0 && text[p] != SLASH
      invariant -1 <= p < |text| && forall i :: p < i < |text| ==> text[i] != SLASH
    {
      p := p - 1;
    }
  }

  /** strchr for a slash from a position on: its first position, or -1. */
  method NextSlash(text: Bytes, from: nat) returns (p: int)
    requires from <= |text|
    ensures p == -1 || from <= p < |text|
    ensures p >= 0 ==> text[p] == SLASH && forall i :: from <= i < p ==> text[i] != SLASH
    ensures p == -1 ==> forall i :: from <= i < |text| ==> text[i] != SLASH
  {
    p := from;
    while p < |text|
      invariant from <= p <= |text| && forall i :: from <= i < p ==> text[i] != SLASH
    {
      if text[p] == SLASH {
        return;
      }
      p := p + 1;
    }
    return -1;
  }

  /** The parts of a path are determined by its last slash. */
  lemma PathParts(text: Bytes, p: nat, number: Bytes, file: Bytes)
    requires IsPath(text, number, file) && p < |text| && text[p] == SLASH
             && forall i :: p < i < |text| ==> text[i] != SLASH
    ensures p >= 3 && file == text[p + 1..] && (p > 3 ==> number == text[4..p])
  {
    var q := |text| - |file| - 1;
    assert text[q + 1..] == file;
    assert text[q] == SLASH;
    forall i | q < i < |text| ensures text[i] != SLASH { assert text[i] == file[i - q - 1]; }
    if p > 3 && text == Prefix() + number + [SLASH] + file { assert text[4..p] == number; }
  }

  lemma DigitInPath(text: Bytes, p: nat, number: Bytes, file: Bytes, c: nat)
    requires 4 <= c < p < |text| && text[p] == SLASH && forall i :: p < i < |text| ==> text[i] != SLASH
    ensures IsPath(text, number, file) ==> IsDigit(text[c])
  {
    if IsPath(text, number, file) {
      PathParts(text, p, number, file);
      assert number[c - 4] == text[c];
    }
  }

  lemma MakePath(text: Bytes, p: nat)
    requires |text| >= 4 && text[..4] == Prefix() && 3 <= p < |text| && text[p] == SLASH
    requires forall i :: p < i < |text| ==> text[i] != SLASH
    requires forall i :: 4 <= i < p ==> IsDigit(text[i])
    ensures IsPath(text, if p == 3 then [] else text[4..p], text[p + 1..])
  {
    if p == 3 {
      assert text == Prefix() + text[4..];
    } else {
      assert text == Prefix() + text[4..p] + [SLASH] + text[p + 1..];
    }
  }

  /** The lookup in the table of files. */
  method CheckFile(file: Bytes, desc: Bytes) returns (ok: bool)
    ensures ok == FileOk(file, desc)
  {
    var k := 0;
    while k < |Checks()|
      invariant 0 <= k <= |Checks()| && forall j {:trigger FileName(j)} :: 0 <= j < k ==> FileName(j) != file
    {
      if FileName(k) == file {
        var c := Checks()[k];
        assert IsCheckFor(k, file);
        if c.size != 0 && c.size != |desc| {
          return false;
        }
        if c.hex {
          ok := CheckHexNote(desc);
          return;
        }
        return true;
      }
      k := k + 1;
    }
    return true;
  }

  method CheckNote(n: Note) returns (ok: bool)
    requires Selected(n)
    ensures ok == NoteOk(n)
  {
    SelectedText(n);
    var text := Text(n.name);
    var slash := LastSlash(text);
    assert text[3] == text[..4][3];
    ghost var number := if slash == 3 then [] else text[4..slash];
    var c := 4;
    while c < slash
      invariant 4 <= c && (c <= slash || slash == 3) && forall i :: 4 <= i < c ==> i >= slash || IsDigit(text[i])
    {
      if !IsDigit(text[c]) {
        forall d, f { DigitInPath(text, slash, d, f, c); }
        return false;
      }
      c := c + 1;
    }
    MakePath(text, slash);
    var file := text[slash + 1..];
    ok := CheckFile(file, n.desc);
    forall d, f | IsPath(text, d, f) ensures f == file {
      PathParts(text, slash, d, f);
    }
    assert IsPath(text, number, file);
  }

  method CheckFdNote(n: Note, fd: Bytes) returns (ok: bool)
    requires Selected(n)
    ensures ok == FdOk(n, fd)
  {
    SelectedText(n);
    var text := Text(n.name);
    assert text[0] == text[..4][0] && text[1] == text[..4][1] && text[2] == text[..4][2] && text[3] == text[..4][3];
    var first := NextSlash(text, 0);
    assert first == 3;
    var sep := NextSlash(text, first + 1);
    if sep == -1 {
      NoFd(text, fd);
      return false;
    }
    ok := fd == text[first + 1..sep];
    if ok {
      assert text == Prefix() + fd + [SLASH] + text[sep + 1..];
    }
    OneFd(text, fd, sep);
  }

  /** A text without a slash after the prefix names no context. */
  lemma NoFd(text: Bytes, fd: Bytes)
    requires |text| >= 4 && forall i :: 4 <= i < |text| ==> text[i] != SLASH
    ensures forall rest :: text != Prefix() + fd + [SLASH] + rest
  {
    forall rest ensures text != Prefix() + fd + [SLASH] + rest {
      var q := Prefix() + fd + [SLASH] + rest;
      assert q[4 + |fd|] == SLASH;
    }
  }

  /** The number in a path ends at the next slash. */
  lemma OneFd(text: Bytes, fd: Bytes, sep: nat)
    requires 4 <= sep < |text| && text[sep] == SLASH && forall i :: 4 <= i < sep ==> text[i] != SLASH
    ensures SLASH !in fd && (exists rest :: text == Prefix() + fd + [SLASH] + rest) ==> fd == text[4..sep]
    ensures text[..4] == Prefix() && fd == text[4..sep] ==> SLASH !in fd
  {
    if SLASH !in fd && exists rest :: text == Prefix() + fd + [SLASH] + rest {
      var rest :| text == Prefix() + fd + [SLASH] + rest;
      assert text[4 + |fd|] == SLASH;
      assert forall i :: 0 <= i < |fd| ==> text[4 + i] == fd[i];
      assert sep == 4 + |fd|;
      assert text[4..sep] == fd;
    }
  }

  /** What becomes of one note: the answer, if it ends the run, and the output. */
  method Handle(n: Note, action: Action, ghost rest: seq<Note>, ghost broken: bool) returns (done: bool, rc: int,
      out: seq<Output>)
    ensures var a := Answer([n] + rest, broken, action);
            if done then a == (rc, out) else a == (Answer(rest, broken, action).0, out + Answer(rest, broken, action).1)
  {
    done, rc, out := false, 0, [];
    assert ([n] + rest)[1..] == rest;
    assert forall q: seq<Output> :: [] + q == q;
    if n.kind != 1 || |n.name| < 5 || n.name[..4] != Prefix() {
      return;
    }
    match action
    case ListNotes =>
      SelectedText(n);
      out := [Line(|n.desc|, Text(n.name)[4..])];
    case CheckNotes =>
      var ok := CheckNote(n);
      if !ok { done, rc := true, -1; }
    case CheckFd(fd) =>
      var ok := CheckFdNote(n, fd);
      if !ok { done, rc := true, -1; }
    case DumpNote(name) =>
      if Named(n, name) {
        done, out := true, [Data(n.desc)];
      }
    case FindExec =>
  }

  /** The answer so far, and what the notes that are left will add to it. */
  ghost predicate Continues(all: (int, seq<Output>), out: seq<Output>, left: seq<Note>, broken: bool, action: Action) {
    var r := Answer(left, broken, action); all.0 == r.0 && all.1 == out + r.1
  }

  /** The two bounds checks of the loop, and the note at offset when both are passed. */
  method NextNote(notes: Bytes, offset: nat) returns (ok: bool, n: Note, next: nat)
    requires offset < |notes| && Readable(notes, offset)
    ensures ok ==>
              && offset < next <= |notes| && Readable(notes, next)
              && NotesFrom(notes, offset) == [n] + NotesFrom(notes, next) && Whole(notes, offset) == Whole(notes, next)
    ensures !ok ==> NotesFrom(notes, offset) == [] && !Whole(notes, offset)
  {
    ok, n, next := false, Note(0, [], []), offset;
    var namesz, descsz := Pad(NameSize(notes, offset)), Pad(DescSize(notes, offset));
    if offset + HEADER + namesz > |notes| {
      return;
    }
    if offset + HEADER + namesz + descsz > |notes| {
      return;
    }
    return true, NoteAt(notes, offset), offset + HEADER + namesz + descsz;
  }

  lemma ContinuesEnd(all: (int, seq<Output>), out: seq<Output>, broken: bool, action: Action)
    requires Continues(all, out, [], broken, action)
    ensures all == (if broken || action.DumpNote? then -1 else 0, out)
  {
    var none: seq<Output> := [];
    assert out + none == out;
  }

  method HandleOne(n: Note, action: Action, ghost left: seq<Note>, ghost broken: bool, ghost all: (int, seq<Output>),
      out: seq<Output>)
    returns (done: bool, rc: int, out': seq<Output>)
    requires Continues(all, out, [n] + left, broken, action)
    ensures if done then all == (rc, out') else Continues(all, out', left, broken, action)
  {
    var o;
    done, rc, o := Handle(n, action, left, broken);
    out' := out + o;
    assert out + (o + Answer(left, broken, action).1) == out' + Answer(left, broken, action).1;
  }

  /** The loop over a notes section. */
  method ParseNotes(notes: Bytes, action: Action) returns (rc: int, out: seq<Output>)
    requires |notes| < 0x8000_0000 && Readable(notes, 0) && NamesEnd(notes, 0)
    ensures (rc, out) == Answer(NotesFrom(notes, 0), !Whole(notes, 0), action)
  {
    out := [];
    var offset := 0;
    ghost var broken, left := !Whole(notes, 0), NotesFrom(notes, 0);
    ghost var all := Answer(left, broken, action);
    assert [] + all.1 == all.1;
    while offset < |notes|
      invariant 0 <= offset <= |notes| && Readable(notes, offset)
      invariant broken == !Whole(notes, offset) && left == NotesFrom(notes, offset)
      invariant Continues(all, out, left, broken, action)
      decreases |notes| - offset
    {
      var ok, n, next := NextNote(notes, offset);
      if !ok {
        ContinuesEnd(all, out, broken, action);
        return -1, out;
      }
      left := NotesFrom(notes, next);
      var done;
      done, rc, out := HandleOne(n, action, left, broken, all, out);
      if done {
        return;
      }
      offset := next;
    }
    ContinuesEnd(all, out, broken, action);
    rc := if action.DumpNote? then -1 else 0;
  }

  // ---------- what the answers mean ----------

  ghost function SelectedNotes(notes: seq<Note>): (q: seq<Note>)
    ensures forall n :: n in q ==> Selected(n) && n in notes
  {
    if notes == [] then [] else (if Selected(notes[0]) then [notes[0]] else []) + SelectedNotes(notes[1..])
  }

  /** Listing visits exactly the SPU notes, in their order. */
  lemma {:induction false} ListMeans(notes: seq<Note>, broken: bool)
    ensures var (rc, out) := Answer(notes, broken, ListNotes); var q := SelectedNotes(notes);
            && rc == (if broken then -1 else 0) && |out| == |q|
            && forall i :: 0 <= i < |q| ==> out[i] == Line(|q[i].desc|, Text(q[i].name)[if |Text(q[i].name)| < 4 then 0 else 4..])
  {
    if notes != [] {
      ListMeans(notes[1..], broken);
      if Selected(notes[0]) { SelectedText(notes[0]); }
    }
  }

  /** Checking succeeds exactly when every SPU note is as it should be and the section is whole. */
  lemma {:induction false} CheckMeans(notes: seq<Note>, broken: bool)
    ensures var (rc, out) := Answer(notes, broken, CheckNotes);
            && out == [] && (rc == 0 || rc == -1)
            && (rc == 0 <==> !broken && forall n :: n in notes && Selected(n) ==> NoteOk(n))
  {
    if notes != [] {
      CheckMeans(notes[1..], broken);
      assert forall n :: n in notes <==> n == notes[0] || n in notes[1..];
    }
  }

  lemma {:induction false} CheckFdMeans(notes: seq<Note>, broken: bool, fd: Bytes)
    ensures var (rc, out) := Answer(notes, broken, CheckFd(fd));
            && out == [] && (rc == 0 || rc == -1)
            && (rc == 0 <==> !broken && forall n :: n in notes && Selected(n) ==> FdOk(n, fd))
  {
    if notes != [] {
      CheckFdMeans(notes[1..], broken, fd);
      assert forall n :: n in notes <==> n == notes[0] || n in notes[1..];
    }
  }

  /** i is the first SPU note of that name. */
  ghost predicate IsFirst(notes: seq<Note>, name: Bytes, i: int) {
    && 0 <= i < |notes| && Selected(notes[i]) && Named(notes[i], name)
    && forall j {:trigger notes[j]} :: 0 <= j < i && Selected(notes[j]) ==> !Named(notes[j], name)
  }

  lemma {:induction false} DumpFound(notes: seq<Note>, broken: bool, name: Bytes, i: nat)
    requires IsFirst(notes, name, i)
    ensures Answer(notes, broken, DumpNote(name)) == (0, [Data(notes[i].desc)])
    decreases i
  {
    if i > 0 {
      var rest := notes[1..];
      assert forall j :: 0 <= j < |rest| ==> rest[j] == notes[j + 1];
      assert Selected(notes[0]) ==> !Named(notes[0], name);
      DumpFound(rest, broken, name, i - 1);
    }
  }

  lemma {:induction false} DumpMissing(notes: seq<Note>, broken: bool, name: Bytes)
    requires forall j {:trigger notes[j]} :: 0 <= j < |notes| && Selected(notes[j]) ==> !Named(notes[j], name)
    ensures Answer(notes, broken, DumpNote(name)) == (-1, [])
    decreases |notes|
  {
    if notes != [] {
      var rest := notes[1..];
      assert forall j :: 0 <= j < |rest| ==> rest[j] == notes[j + 1];
      assert Selected(notes[0]) ==> !Named(notes[0], name);
      DumpMissing(rest, broken, name);
    }
  }

  /** The first of the notes with that name, if there is one. */
  lemma {:induction false} FirstNamed(notes: seq<Note>, name: Bytes, k: nat) returns (i: nat)
    requires k < |notes| && Selected(notes[k]) && Named(notes[k], name)
    ensures IsFirst(notes, name, i)
    decreases k
  {
    if j :| 0 <= j < k && Selected(notes[j]) && Named(notes[j], name) {
      i := FirstNamed(notes, name, j);
    } else {
      i := k;
    }
  }

  /** A dump writes exactly the descriptor of the first SPU note of that name, if there is
      one; if not it fails. */
  lemma DumpMeans(notes: seq<Note>, broken: bool, name: Bytes)
    ensures if exists k {:trigger notes[k]} :: 0 <= k < |notes| && Selected(notes[k]) && Named(notes[k], name)
            then exists i :: IsFirst(notes, name, i) && Answer(notes, broken, DumpNote(name)) == (0, [Data(notes[i].desc)])
            else Answer(notes, broken, DumpNote(name)) == (-1, [])
  {
    if k :| 0 <= k < |notes| && Selected(notes[k]) && Named(notes[k], name) {
      var i := FirstNamed(notes, name, k);
      DumpFound(notes, broken, name, i);
    } else {
      DumpMissing(notes, broken, name);
    }
  }

  /** The byte behind a name that has been written. */
  lemma WrittenNameEnds(b: Bytes, o: nat, n: Note, rest: Bytes)
    requires n.kind < WORD && |n.name| < WORD && |n.desc| < WORD && o <= |b| && b[o..] == Written(n) + rest
    requires 0 in n.name || |n.name| % 4 != 0
    ensures o + HEADER <= |b| && After(b, o) == o + |Written(n)| <= |b| && b[After(b, o)..] == rest
            && NoteAt(b, o) == n && NameEnds(b, o)
  {
    ReadWrittenAt(b, o, n, rest);
    if 0 !in n.name {
      var k := HEADER + |n.name|;
      assert b[o + k] == b[o..][k] == Written(n)[k];
      assert Written(n)[k] == Padded(n.name)[|n.name|];
    }
  }

  lemma {:induction false} WrittenNamesEnd(b: Bytes, o: nat, notes: seq<Note>)
    requires Writable(notes) && Terminated(notes) && o <= |b| && b[o..] == WrittenAll(notes)
    ensures NamesEnd(b, o)
    decreases |notes|
  {
    if notes == [] {
      assert |b[o..]| == 0;
    } else {
      var n, rest := notes[0], notes[1..];
      assert n.kind < WORD && |n.name| < WORD && |n.desc| < WORD;
      assert WrittenAll(notes) == Written(n) + WrittenAll(rest);
      ReadWrittenAt(b, o, n, WrittenAll(rest));
      if Selected(n) { WrittenNameEnds(b, o, n, WrittenAll(rest)); }
      WrittenNamesEnd(b, After(b, o), rest);
    }
  }

  /** For every list of notes that fits a section: when it has been written, the parser reads
      back exactly these notes. */
  method ParseWritten(notes: seq<Note>, section: Bytes, action: Action) returns (rc: int, out: seq<Output>)
    requires Writable(notes) && section == WrittenAll(notes) && |section| <= MAX_SIZE && Terminated(notes)
    ensures (rc, out) == Answer(notes, false, action)
  {
    assert section[0..] == section;
    RoundTrip(notes);
    WrittenNamesEnd(section, 0, notes);
    rc, out := ParseNotes(section, action);
  }
}
