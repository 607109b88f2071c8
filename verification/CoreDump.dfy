/** tests/11-coredump/parse-core.c from a file to its answer: the program headers, and the
    notes of the segments of type PT_NOTE. */
module CoreDump {
  import opened CoreNotes
  import opened CoreParser
  import opened CoreElf

  const PT_LOAD: nat := 1
  const PT_NOTE: nat := 4

  /** The bytes of a segment; none, when it does not lie inside the file. */
  function Section(b: Bytes, h: Segment): Bytes {
    if h.offset + h.size <= |b| then b[h.offset..h.offset + h.size] else []
  }

  /** What parse_section may be given: a segment inside the file, notes that parse_notes may
      be given, and the first bytes of the first segment that is loaded. */
  ghost predicate Parsable(b: Bytes, h: Segment, action: Action) {
    && Inside(h, |b|)
    && (h.kind == PT_LOAD && action.FindExec? ==> h.offset + 4 <= |b|)
    && (h.kind == PT_NOTE ==> Readable(Section(b, h), 0) && NamesEnd(Section(b, h), 0))
  }

  predicate IsElf(b: Bytes, o: nat) {
    o + 4 <= |b| && b[o] == 0x7f && b[o + 1] == 0x45 && b[o + 2] == 0x4c && b[o + 3] == 0x46
  }

  /** parse_section: 0 ends the search with success, 1 lets it go on, and -1 ends it with a
      failure.  A note that is found and dumped does not end it. */
  ghost function SectionAnswer(b: Bytes, h: Segment, action: Action): (int, seq<Output>) {
    if h.kind == PT_LOAD && action.FindExec? then (if IsElf(b, h.offset) then 0 else -1, [])
    else if h.kind == PT_NOTE then
      var r := Answer(NotesFrom(Section(b, h), 0), !Whole(Section(b, h), 0), action);
      (if r.0 != 0 then -1 else 1, r.1)
    else (1, [])
  }

  /** All program headers. */
  function Headers(b: Bytes, l: Layout): (hs: seq<Segment>)
    requires Known(l) && |b| >= MIN_FILE && TableOk(b, l)
    ensures |hs| == Field(b, l.phnum, 2)
  {
    seq(Field(b, l.phnum, 2), i requires 0 <= i < Field(b, l.phnum, 2) => HeaderInFile(b, l, i); HeaderAt(b, HeaderOffset(b, l, i), l))
  }

  /** What a walk over program headers returns and writes: it fails at the first header that
      is not accepted, and ends where a segment says so. */
  ghost function Walk(hs: seq<Segment>, ok: Segment -> bool, parse: Segment -> (int, seq<Output>)): (int, seq<Output>) {
    if hs == [] then (0, [])
    else if !ok(hs[0]) then (-1, [])
    else
      var r := parse(hs[0]);
      if r.0 <= 0 then r
      else var q := Walk(hs[1..], ok, parse); (q.0, r.1 + q.1)
  }

  ghost function Accepting(fileSize: nat, l: Layout): Segment -> bool { h => Accepted(h, fileSize, l) }

  ghost function Parsing(b: Bytes, action: Action): Segment -> (int, seq<Output>) { h => SectionAnswer(b, h, action) }

  /** What the program returns and writes for a file with a proper header. */
  ghost function CoreAnswer(b: Bytes, l: Layout, action: Action): (int, seq<Output>)
    requires Known(l) && |b| >= MIN_FILE && TableOk(b, l)
  {
    Walk(Headers(b, l), Accepting(|b|, l), Parsing(b, action))
  }

  /** The walk comes to header i. */
  ghost predicate Reached(hs: seq<Segment>, i: nat, ok: Segment -> bool, parse: Segment -> (int, seq<Output>))
    requires i <= |hs|
  {
    forall j {:trigger hs[j]} :: 0 <= j < i ==> ok(hs[j]) && parse(hs[j]).0 > 0
  }

  /** Every segment that is handed on may be. */
  ghost predicate AllParsable(b: Bytes, hs: seq<Segment>, l: Layout, action: Action) {
    forall i {:trigger hs[i]} ::
      0 <= i < |hs| && Accepted(hs[i], |b|, l) && Reached(hs, i, Accepting(|b|, l), Parsing(b, action)) ==>
        Parsable(b, hs[i], action)
  }

  // ---------- the code ----------

  method ParseSection(b: Bytes, h: Segment, action: Action) returns (rc: int, out: seq<Output>)
    requires |b| < 0x8000_0000 && Parsable(b, h, action)
    ensures (rc, out) == SectionAnswer(b, h, action)
  {
    out := [];
    if h.kind == PT_LOAD && action.FindExec? {
      rc := if IsElf(b, h.offset) then 0 else -1;
      return;
    } else if h.kind == PT_NOTE {
      rc, out := ParseNotes(Section(b, h), action);
      rc := if rc != 0 then -1 else 1;
      return;
    }
    rc := 1;
  }

  /** The answer so far, and what the other headers will add to it. */
  ghost predicate Adds(all: (int, seq<Output>), out: seq<Output>, hs: seq<Segment>, ok: Segment -> bool,
      parse: Segment -> (int, seq<Output>)) {
    var r := Walk(hs, ok, parse); all.0 == r.0 && all.1 == out + r.1
  }

  lemma AddsStep(all: (int, seq<Output>), out: seq<Output>, hs: seq<Segment>, ok: Segment -> bool,
      parse: Segment -> (int, seq<Output>))
    requires hs != [] && Adds(all, out, hs, ok, parse)
    ensures var r := parse(hs[0]);
            if !ok(hs[0]) then all == (-1, out)
            else if r.0 <= 0 then all == (r.0, out + r.1)
            else Adds(all, out + r.1, hs[1..], ok, parse)
  {
    var r, next := parse(hs[0]), Walk(hs[1..], ok, parse).1;
    assert out + (r.1 + next) == (out + r.1) + next;
    assert out + [] == out;
  }

  lemma AddsEnd(all: (int, seq<Output>), out: seq<Output>, ok: Segment -> bool, parse: Segment -> (int, seq<Output>))
    requires Adds(all, out, [], ok, parse)
    ensures all == (0, out)
  {
    assert out + [] == out;
  }

  lemma AddsStart(hs: seq<Segment>, ok: Segment -> bool, parse: Segment -> (int, seq<Output>))
    ensures Adds(Walk(hs, ok, parse), [], hs[0..], ok, parse)
  {
    assert hs[0..] == hs;
    var r := Walk(hs, ok, parse);
    assert [] + r.1 == r.1;
  }

  /** One program header. */
  method VisitSection(b: Bytes, l: Layout, i: nat, action: Action, out: seq<Output>, ghost all: (int, seq<Output>))
    returns (done: bool, rc: int, out': seq<Output>)
    requires Known(l) && MIN_FILE <= |b| < 0x8000_0000 && TableOk(b, l) && i < Field(b, l.phnum, 2)
    requires AllParsable(b, Headers(b, l), l, action)
    requires Adds(all, out, Headers(b, l)[i..], Accepting(|b|, l), Parsing(b, action))
    requires Reached(Headers(b, l), i, Accepting(|b|, l), Parsing(b, action))
    ensures if done then all == (rc, out')
            else Adds(all, out', Headers(b, l)[i + 1..], Accepting(|b|, l), Parsing(b, action))
                 && Reached(Headers(b, l), i + 1, Accepting(|b|, l), Parsing(b, action))
  {
    ghost var hs := Headers(b, l);
    AddsStep(all, out, hs[i..], Accepting(|b|, l), Parsing(b, action));
    assert hs[i..][0] == hs[i] && hs[i..][1..] == hs[i + 1..];
    var ok, h := ReadHeader(b, l, i);
    assert h == hs[i];
    if !ok {
      return true, -1, out;
    }
    var o;
    rc, o := ParseSection(b, h, action);
    done, out' := rc <= 0, out + o;
  }

  /** parse_elf with parse_section: the answer of the program for a whole file. */
  method ParseCore(b: Bytes, action: Action) returns (rc: int, out: seq<Output>)
    requires MIN_FILE <= |b| < 0x8000_0000
    requires IdentOk(b) && TableOk(b, LayoutOf(b)) ==> AllParsable(b, Headers(b, LayoutOf(b)), LayoutOf(b), action)
    ensures if IdentOk(b) && TableOk(b, LayoutOf(b)) then (rc, out) == CoreAnswer(b, LayoutOf(b), action) else (rc, out) == (-1, [])
  {
    out := [];
    var ok, l := CheckIdent(b);
    if !ok {
      return -1, out;
    }
    ok := CheckTable(b, l);
    if !ok {
      return -1, out;
    }
    rc, out := ParseSections(b, l, action);
  }

  /** The loop over the program headers. */
  method ParseSections(b: Bytes, l: Layout, action: Action) returns (rc: int, out: seq<Output>)
    requires Known(l) && MIN_FILE <= |b| < 0x8000_0000 && TableOk(b, l) && AllParsable(b, Headers(b, l), l, action)
    ensures (rc, out) == CoreAnswer(b, l, action)
  {
    out := [];
    ghost var hs, all := Headers(b, l), CoreAnswer(b, l, action);
    AddsStart(hs, Accepting(|b|, l), Parsing(b, action));
    var i, phnum := 0, Field(b, l.phnum, 2);
    while i < phnum
      invariant 0 <= i <= phnum && Adds(all, out, hs[i..], Accepting(|b|, l), Parsing(b, action))
      invariant Reached(hs, i, Accepting(|b|, l), Parsing(b, action))
    {
      var done;
      done, rc, out := VisitSection(b, l, i, action, out, all);
      if done {
        return;
      }
      i := i + 1;
    }
    AddsEnd(all, out, Accepting(|b|, l), Parsing(b, action));
    rc := 0;
  }

  // ---------- files that have been written ----------

  /** The segments lie inside the file, and those of type PT_NOTE hold these lists of notes,
      one after the other. */
  ghost predicate HoldsNotes(b: Bytes, hs: seq<Segment>, lists: seq<seq<Note>>) {
    if hs == [] then lists == []
    else
      && Inside(hs[0], |b|)
      && if hs[0].kind != PT_NOTE then HoldsNotes(b, hs[1..], lists)
         else lists != [] && HasNotes(b, hs[0], lists[0]) && HoldsNotes(b, hs[1..], lists[1..])
  }

  ghost predicate HasNotes(b: Bytes, h: Segment, notes: seq<Note>) {
    Writable(notes) && Terminated(notes) && |WrittenAll(notes)| <= MAX_SIZE && Section(b, h) == WrittenAll(notes)
  }

  /** The answers for several lists of notes: the first failure ends it. */
  ghost function AnswerAll(lists: seq<seq<Note>>, action: Action): (int, seq<Output>) {
    if lists == [] then (0, [])
    else
      var r := Answer(lists[0], false, action);
      if r.0 != 0 then (-1, r.1)
      else var q := AnswerAll(lists[1..], action); (q.0, r.1 + q.1)
  }

  lemma WrittenParsable(b: Bytes, h: Segment, notes: seq<Note>, action: Action)
    requires Inside(h, |b|) && h.kind == PT_NOTE && HasNotes(b, h, notes)
    ensures Parsable(b, h, action)
  {
    RoundTrip(notes);
    assert WrittenAll(notes)[0..] == WrittenAll(notes);
    WrittenNamesEnd(WrittenAll(notes), 0, notes);
  }

  lemma WrittenAnswer(b: Bytes, h: Segment, notes: seq<Note>, action: Action)
    requires h.kind == PT_NOTE && HasNotes(b, h, notes)
    ensures var r := Answer(notes, false, action); Parsing(b, action)(h) == (if r.0 != 0 then -1 else 1, r.1)
  {
    RoundTrip(notes);
  }

  lemma AcceptedInside(h: Segment, fileSize: nat, l: Layout)
    requires Known(l) && fileSize < 0x8000_0000 && Inside(h, fileSize)
    ensures Accepting(fileSize, l)(h)
  {
    Moduli();
  }

  /** In such a file every segment may be handed on, unless the executable is asked for. */
  lemma {:induction false} HeldParsable(b: Bytes, hs: seq<Segment>, lists: seq<seq<Note>>, action: Action, j: nat)
    requires HoldsNotes(b, hs, lists) && !action.FindExec? && j < |hs|
    ensures Parsable(b, hs[j], action)
    decreases j
  {
    if j == 0 {
      if hs[0].kind == PT_NOTE { WrittenParsable(b, hs[0], lists[0], action); }
    } else {
      HeldParsable(b, hs[1..], if hs[0].kind == PT_NOTE then lists[1..] else lists, action, j - 1);
    }
  }

  /** One step of a walk in which nothing is added. */
  lemma WalkOn(hs: seq<Segment>, ok: Segment -> bool, parse: Segment -> (int, seq<Output>))
    requires hs != [] && ok(hs[0]) && parse(hs[0]) == (1, [])
    ensures Walk(hs, ok, parse) == Walk(hs[1..], ok, parse)
  {
    var q := Walk(hs[1..], ok, parse);
    assert [] + q.1 == q.1;
  }

  lemma AnswerStep(hs: seq<Segment>, ok: Segment -> bool, parse: Segment -> (int, seq<Output>), lists: seq<seq<Note>>,
      action: Action)
    requires hs != [] && lists != [] && ok(hs[0])
    requires var r := Answer(lists[0], false, action); parse(hs[0]) == (if r.0 != 0 then -1 else 1, r.1)
    requires Walk(hs[1..], ok, parse) == AnswerAll(lists[1..], action)
    ensures Walk(hs, ok, parse) == AnswerAll(lists, action)
  {
  }

  /** A walk over segments that hold written notes is answered from exactly these. */
  lemma {:induction false} WalkAnswers(b: Bytes, hs: seq<Segment>, lists: seq<seq<Note>>, l: Layout, action: Action)
    requires Known(l) && |b| < 0x8000_0000 && HoldsNotes(b, hs, lists) && !action.FindExec?
    ensures Walk(hs, Accepting(|b|, l), Parsing(b, action)) == AnswerAll(lists, action)
    decreases |hs|
  {
    if hs != [] {
      AcceptedInside(hs[0], |b|, l);
      if hs[0].kind == PT_NOTE {
        WrittenAnswer(b, hs[0], lists[0], action);
        WalkAnswers(b, hs[1..], lists[1..], l, action);
        AnswerStep(hs, Accepting(|b|, l), Parsing(b, action), lists, action);
      } else {
        WalkAnswers(b, hs[1..], lists, l, action);
        WalkOn(hs, Accepting(|b|, l), Parsing(b, action));
      }
    }
  }

  /** The program on a core file whose note segments hold written notes: it answers from
      exactly these. */
  method ParseDump(b: Bytes, lists: seq<seq<Note>>, action: Action) returns (rc: int, out: seq<Output>)
    requires MIN_FILE <= |b| < 0x8000_0000 && IdentOk(b) && TableOk(b, LayoutOf(b)) && !action.FindExec?
    requires HoldsNotes(b, Headers(b, LayoutOf(b)), lists)
    ensures (rc, out) == AnswerAll(lists, action)
  {
    ghost var hs := Headers(b, LayoutOf(b));
    forall j | 0 <= j < |hs| ensures Parsable(b, hs[j], action) { HeldParsable(b, hs, lists, action, j); }
    WalkAnswers(b, hs, lists, LayoutOf(b), action);
    rc, out := ParseCore(b, action);
  }

  /** One list of notes is answered as parse_notes answers it. */
  lemma OneList(notes: seq<Note>, action: Action)
    ensures AnswerAll([notes], action) == (if Answer(notes, false, action).0 == 0 then 0 else -1, Answer(notes, false, action).1)
  {
    var r := Answer(notes, false, action);
    assert AnswerAll([notes][1..], action) == (0, []);
    assert r.1 + [] == r.1;
  }

  // ---------- --find-exec ----------

  /** The segment is inside the file, and if it is one of notes these are whole. */
  ghost predicate Passable(b: Bytes, h: Segment) {
    && h.offset + h.size <= |b|
    && (h.kind == 4 ==>
          var q := b[h.offset..h.offset + h.size]; Readable(q, 0) && NamesEnd(q, 0) && Whole(q, 0))
  }

  /** k is the first segment of type PT_LOAD, or there is none and k is the number of headers;
      the segments before it can be passed, and it has its first four bytes in the file. */
  ghost predicate FirstLoad(b: Bytes, hs: seq<Segment>, k: nat) {
    && k <= |hs| && (forall i {:trigger hs[i]} :: 0 <= i < k ==> hs[i].kind != 1 && Passable(b, hs[i]))
    && (k < |hs| ==> hs[k].kind == 1 && hs[k].offset + hs[k].size <= |b| && hs[k].offset + 4 <= |b|)
  }

  lemma {:induction false} ExecAnswer(notes: seq<Note>)
    ensures Answer(notes, false, FindExec) == (0, [])
    decreases |notes|
  {
    if notes != [] { ExecAnswer(notes[1..]); }
  }

  lemma PassedOn(b: Bytes, h: Segment)
    requires h.kind != 1 && Passable(b, h)
    ensures Parsing(b, FindExec)(h) == (1, []) && Parsable(b, h, FindExec)
  {
    if h.kind == 4 { ExecAnswer(NotesFrom(Section(b, h), 0)); }
  }

  lemma {:induction false} WalkExec(b: Bytes, hs: seq<Segment>, l: Layout, k: nat)
    requires Known(l) && |b| < 0x8000_0000 && FirstLoad(b, hs, k)
    ensures var r := Walk(hs, Accepting(|b|, l), Parsing(b, FindExec));
            && r.1 == []
            && if k == |hs| then r.0 == 0
               else r.0 == if b[hs[k].offset..hs[k].offset + 4] == [0x7f, 0x45, 0x4c, 0x46] then 0 else -1
    decreases k
  {
    if k > 0 {
      var rest := hs[1..];
      AcceptedInside(hs[0], |b|, l);
      PassedOn(b, hs[0]);
      forall i | 0 <= i < k - 1 ensures rest[i].kind != 1 && Passable(b, rest[i]) { assert rest[i] == hs[i + 1]; }
      WalkExec(b, rest, l, k - 1);
      WalkOn(hs, Accepting(|b|, l), Parsing(b, FindExec));
    } else if hs != [] {
      AcceptedInside(hs[0], |b|, l);
      var o := hs[0].offset;
      var q := b[o..o + 4];
      assert q[0] == b[o] && q[1] == b[o + 1] && q[2] == b[o + 2] && q[3] == b[o + 3];
    }
  }

  lemma NotBeyond(b: Bytes, hs: seq<Segment>, l: Layout, k: nat, i: nat)
    requires FirstLoad(b, hs, k) && k < i <= |hs|
    ensures !Reached(hs, i, Accepting(|b|, l), Parsing(b, FindExec))
  {
    assert !(Parsing(b, FindExec)(hs[k]).0 > 0);
  }

  lemma ExecParsable(b: Bytes, hs: seq<Segment>, l: Layout, k: nat)
    requires Known(l) && FirstLoad(b, hs, k)
    ensures AllParsable(b, hs, l, FindExec)
  {
    forall i | 0 <= i < |hs|
      ensures Reached(hs, i, Accepting(|b|, l), Parsing(b, FindExec)) ==> Parsable(b, hs[i], FindExec)
    {
      if k < i { NotBeyond(b, hs, l, k, i); }
      if i < k { PassedOn(b, hs[i]); }
    }
  }

  /** parse-core --find-exec: success exactly when the first segment of type PT_LOAD begins
      with the ELF magic number, or when there is no such segment. */
  method FindExecutable(b: Bytes, ghost k: nat) returns (rc: int, out: seq<Output>)
    requires MIN_FILE <= |b| < 0x8000_0000 && IdentOk(b) && TableOk(b, LayoutOf(b))
    requires FirstLoad(b, Headers(b, LayoutOf(b)), k)
    ensures out == []
    ensures var hs := Headers(b, LayoutOf(b));
            if k == |hs| then rc == 0
            else rc == if b[hs[k].offset..hs[k].offset + 4] == [0x7f, 0x45, 0x4c, 0x46] then 0 else -1
  {
    ExecParsable(b, Headers(b, LayoutOf(b)), LayoutOf(b), k);
    WalkExec(b, Headers(b, LayoutOf(b)), LayoutOf(b), k);
    rc, out := ParseCore(b, FindExec);
  }
}
