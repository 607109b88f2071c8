/** The program of tests/09-mailbox/02-mbox-multiple.c and 03-mbox-multiple+sched.c, which
    checks that messages arrive complete and in order. */
module SpuChecker {
  import opened Words
  import opened Spu
  import opened SpuMail

  function Program(): seq<Word> {
    [0x32f8_0002, 0x4080_0000, 0x01a0_0e81, 0x7800_8083, 0x2000_0103, 0x0000_1337,
     0x7800_0083, 0x1c00_4000, 0x217f_fd03, 0x0000_0000]
  }

  function Listing(n: nat): Instruction {
    if n == 0 then Fsmbi(2, 0xf000)
    else if n == 1 then Il(0, 0)
    else if n == 2 then Rdch(1, MBOX_CHANNEL)
    else if n == 3 then Ceq(3, 1, 2)
    else if n == 4 then Brz(3, 2)
    else if n == 5 then Stop(0x1337)
    else if n == 6 then Ceq(3, 1, 0)
    else if n == 7 then Ai(0, 0, 1)
    else if n == 8 then Brnz(3, -6)
    else Stop(0)
  }

  lemma DecodedStart(n: nat)
    requires n < 3
    ensures Decode(Program()[n]) == Listing(n)
  {
    if n == 0 { assert Decode(Program()[0]) == Listing(0); }
    else if n == 1 { assert Decode(Program()[1]) == Listing(1); }
    else { assert Decode(Program()[2]) == Listing(2); }
  }

  lemma DecodedTest(n: nat)
    requires 3 <= n < 6
    ensures Decode(Program()[n]) == Listing(n)
  {
    if n == 3 { assert Decode(Program()[3]) == Listing(3); }
    else if n == 4 { assert Decode(Program()[4]) == Listing(4); }
    else { assert Decode(Program()[5]) == Listing(5); }
  }

  lemma DecodedLoop(n: nat)
    requires 6 <= n < 10
    ensures Decode(Program()[n]) == Listing(n)
  {
    if n == 6 { assert Decode(Program()[6]) == Listing(6); }
    else if n == 7 { assert Decode(Program()[7]) == Listing(7); }
    else if n == 8 { assert Decode(Program()[8]) == Listing(8); }
    else { assert Decode(Program()[9]) == Listing(9); }
  }

  /** The words of the program are the instructions of the listing. */
  lemma Decoded(n: nat)
    requires n < 10
    ensures Decode(Program()[n]) == Listing(n)
  {
    if n < 3 { DecodedStart(n); } else if n < 6 { DecodedTest(n); } else { DecodedLoop(n); }
  }

  lemma Fetched(m: Machine)
    requires Proper(m) && Loaded(m.ls, 0, Program()) && m.pc < 10
    ensures Fetch(m) == Listing(m.pc)
  {
    Decoded(m.pc);
    assert Program()[m.pc] == m.ls[0 + m.pc];
  }

  // ---------- messages in order ----------

  /** q is 0, 1, .., |q| - 1. */
  ghost predicate InOrder(q: seq<Word>) {
    forall j {:trigger q[j]} :: 0 <= j < |q| ==> q[j] == j
  }

  /** What the program makes of a stream of messages: it stops with 0x1337 at the first stop
      message if all before it count up from 0, it stops with 0 at the first message that is
      out of order, and it goes on waiting if there is neither. */
  ghost predicate Verdict(msgs: seq<Word>, run: Run) {
    if exists n {:trigger msgs[n]} :: 0 <= n < |msgs| && InOrder(msgs[..n]) && msgs[n] == ONES then run == Stopped(0x1337)
    else if InOrder(msgs) then run == Running
    else run == Stopped(0)
  }

  /** Where the program is after it has read got. */
  ghost predicate Position(s: Spe) {
    && Proper(s.m) && Loaded(s.m.ls, 0, Program())
    && var k, r := |s.got|, s.m.regs;
       match s.run
       case Stopped(code) =>
         && k > 0 && InOrder(s.got[..k - 1]) && ONES !in s.got[..k - 1]
         && ((code == 0x1337 && s.got[k - 1] == ONES) || (code == 0 && s.got[k - 1] != ONES && s.got[k - 1] != k - 1))
       case Running =>
         && s.m.pc < 10
         && (s.m.pc < 3 ==> InOrder(s.got) && ONES !in s.got)
         && (s.m.pc < 2 ==> k == 0)
         && (s.m.pc >= 1 ==> r[2] == Quad(ONES, 0, 0, 0))
         && (s.m.pc == 2 ==> r[0].w0 == k)
         && (s.m.pc >= 3 ==>
               && k > 0 && InOrder(s.got[..k - 1]) && ONES !in s.got[..k - 1]
               && r[1].w0 == s.got[k - 1]
               && (s.m.pc <= 7 ==> r[0].w0 == k - 1)
               && (s.m.pc == 4 ==> r[3].w0 == Equal(s.got[k - 1], ONES))
               && (s.m.pc == 5 <==> s.m.pc >= 5 && s.got[k - 1] == ONES)
               && (s.m.pc == 7 || s.m.pc == 8 ==> r[3].w0 == if s.got[k - 1] == k - 1 then ONES else 0)
               && (s.m.pc == 8 ==> r[0].w0 == Wrap(k))
               && (s.m.pc == 9 ==> s.got[k - 1] != k - 1))
  }

  lemma ReachesStop(q: seq<Word>)
    requires InOrder(q) && |q| > ONES
    ensures ONES in q
  {
    assert q[ONES] == ONES;
  }

  /** As long as no stop message has come the count cannot wrap around. */
  lemma Short(q: seq<Word>)
    requires InOrder(q) && ONES !in q
    ensures |q| <= ONES
  {
    if |q| > ONES { ReachesStop(q); }
  }

  lemma AdvanceStart(s: Spe, mbox: seq<Word>)
    requires Position(s) && Ready(s, mbox) && s.m.pc < 2
    ensures Position(Advance(s, mbox).0)
  {
    Fetched(s.m);
    MaskTopWord();
  }

  lemma AdvanceRead(s: Spe, mbox: seq<Word>)
    requires Position(s) && Ready(s, mbox) && s.m.pc == 2
    ensures Position(Advance(s, mbox).0)
  {
    Fetched(s.m);
    Short(s.got);
    assert Advance(s, mbox).0.got[..|s.got|] == s.got;
  }

  lemma AdvanceStopTest(s: Spe, mbox: seq<Word>)
    requires Position(s) && Ready(s, mbox) && 3 <= s.m.pc <= 5
    ensures Position(Advance(s, mbox).0)
  {
    Fetched(s.m);
  }

  lemma AdvanceCount(s: Spe, mbox: seq<Word>)
    requires Position(s) && Ready(s, mbox) && 6 <= s.m.pc <= 7
    ensures Position(Advance(s, mbox).0)
  {
    Fetched(s.m);
    Short(s.got[..|s.got| - 1]);
  }

  lemma AdvanceBranch(s: Spe, mbox: seq<Word>)
    requires Position(s) && Ready(s, mbox) && 8 <= s.m.pc
    ensures Position(Advance(s, mbox).0)
  {
    Fetched(s.m);
    var k := |s.got|;
    assert s.got == s.got[..k - 1] + [s.got[k - 1]];
  }

  /** Every instruction keeps the program where Position says. */
  lemma AdvancePosition(s: Spe, mbox: seq<Word>)
    requires Position(s) && Ready(s, mbox)
    ensures Position(Advance(s, mbox).0)
  {
    if s.m.pc < 2 { AdvanceStart(s, mbox); }
    else if s.m.pc == 2 { AdvanceRead(s, mbox); }
    else if s.m.pc <= 5 { AdvanceStopTest(s, mbox); }
    else if s.m.pc <= 7 { AdvanceCount(s, mbox); }
    else { AdvanceBranch(s, mbox); }
  }

  // ---------- the host, the mailbox and the scheduler ----------

  /** The SPE with its mailbox and the messages the host has still to send.  While the
      context is scheduled out the machine is only to be found in the saved image. */
  datatype System = System(spe: Spe, onChip: bool, image: seq<Word>, mbox: seq<Word>, todo: seq<Word>)

  ghost predicate Initial(s: System, msgs: seq<Word>) {
    s == System(Boot(Program(), 0, 0), true, [], [], msgs)
  }

  /** The SPE executes one instruction. */
  ghost predicate SpeStep(s: System, t: System) {
    && s.onChip && Proper(s.spe.m) && Ready(s.spe, s.mbox)
    && var r := Advance(s.spe, s.mbox); t == s.(spe := r.0, mbox := r.1)
  }

  /** The host's write of the next message goes through; it blocks while the mailbox is full. */
  ghost predicate HostStep(s: System, t: System) {
    s.todo != [] && |s.mbox| < MBOX_DEPTH && t == s.(mbox := s.mbox + [s.todo[0]], todo := s.todo[1..])
  }

  ghost predicate SaveStep(s: System, t: System) {
    s.onChip && Proper(s.spe.m)
        && t == s.(onChip := false, image := Save(s.spe.m), spe := s.spe.(m := Boot([], 0, 0).m))
  }

  ghost predicate RestoreStep(s: System, t: System) {
    !s.onChip && |s.image| == 512 + LS_WORDS + 1
        && t == s.(onChip := true, image := [], spe := s.spe.(m := Restore(s.image)))
  }

  /** The system as if the context were on a chip. */
  ghost function View(s: System): System {
    if s.onChip || |s.image| != 512 + LS_WORDS + 1 then s
    else s.(onChip := true, image := [], spe := s.spe.(m := Restore(s.image)))
  }

  ghost predicate Inv(s: System, msgs: seq<Word>) {
    && (s.onChip ==> s.image == [])
    && (!s.onChip ==> |s.image| == 512 + LS_WORDS + 1)
    && Position(View(s).spe)
    && s.spe.got + s.mbox + s.todo == msgs
  }

  lemma InitialInv(s: System, msgs: seq<Word>)
    requires Initial(s, msgs)
    ensures Inv(s, msgs)
  {
  }

  /** Every step of every interleaving keeps the invariant, and seen through View a save or
      a restore is no step at all, and any other step is one of the system on a chip. */
  lemma StepInv(s: System, t: System, msgs: seq<Word>)
    requires Inv(s, msgs) && (SpeStep(s, t) || HostStep(s, t) || SaveStep(s, t) || RestoreStep(s, t))
    ensures Inv(t, msgs)
    ensures View(t) == View(s) || SpeStep(View(s), View(t)) || HostStep(View(s), View(t))
  {
    if SpeStep(s, t) {
      AdvancePosition(s.spe, s.mbox);
      assert t.spe.got + t.mbox + t.todo == s.spe.got + s.mbox + s.todo;
    } else if HostStep(s, t) {
      assert [s.todo[0]] + s.todo[1..] == s.todo;
      assert t.spe.got + t.mbox + t.todo == s.spe.got + s.mbox + s.todo;
    } else if SaveStep(s, t) {
      RestoreSave(s.spe.m);
    }
  }

  // ---------- verdicts ----------

  lemma Earlier(q: seq<Word>, i: nat, n: nat)
    requires n < i <= |q| && InOrder(q[..i])
    ensures q[n] == n
  {
    assert q[..i][n] == q[n];
  }

  /** When the program has stopped it has reached the verdict on the whole stream, whatever
      is still to come: with 0x1337 it has read just up to the first stop message, and with 0
      just up to the first message out of order. */
  lemma StoppedVerdict(s: System, msgs: seq<Word>)
    requires Inv(s, msgs) && s.spe.run.Stopped?
    ensures Verdict(msgs, s.spe.run)
    ensures var n := |s.spe.got| - 1;
            && 0 <= n < |msgs| && s.spe.got == msgs[..n + 1] && InOrder(msgs[..n]) && ONES !in msgs[..n]
            && (s.spe.run == Stopped(0x1337) ==> msgs[n] == ONES)
            && (s.spe.run != Stopped(0x1337) ==> msgs[n] != n && msgs[n] != ONES)
  {
    var got := s.spe.got;
    var n := |got| - 1;
    assert got == msgs[..n + 1] && got[..n] == msgs[..n] && msgs[n] == got[n];
    if s.spe.run == Stopped(0) {
      forall i | 0 <= i < |msgs| && InOrder(msgs[..i]) ensures msgs[i] != ONES {
        if i < n { assert msgs[..n][i] == msgs[i]; }
        if i > n { Earlier(msgs, i, n); }
      }
    }
  }

  /** Nothing is left to do but to save and restore. */
  ghost predicate AtEnd(s: System) {
    && View(s).onChip && Proper(View(s).spe.m)
    && !Ready(View(s).spe, s.mbox) && (s.todo == [] || |s.mbox| >= MBOX_DEPTH)
  }

  /** A run that can go no further has reached the verdict on its stream. */
  lemma EndVerdict(s: System, msgs: seq<Word>)
    requires Inv(s, msgs) && AtEnd(s)
    ensures Verdict(msgs, s.spe.run)
  {
    if s.spe.run.Stopped? {
      StoppedVerdict(s, msgs);
    } else {
      Fetched(View(s).spe.m);
      assert s.mbox == [] && s.todo == [];
      assert s.spe.got == msgs;
    }
  }

  /** How many instructions the program executes at most before it reads again. */
  ghost function Left(s: Spe): nat {
    if s.run.Stopped? then 0
    else if s.m.pc == 0 then 3
    else if s.m.pc == 1 || s.m.pc == 8 then 2
    else if s.m.pc == 3 then 6
    else if s.m.pc == 4 then 5
    else if s.m.pc == 6 then 4
    else if s.m.pc == 7 then 3
    else 1
  }

  ghost function Measure(s: System): nat {
    6 * |s.mbox| + 7 * |s.todo| + Left(s.spe)
  }

  lemma AdvanceLeft(s: Spe, mbox: seq<Word>)
    requires Position(s) && Ready(s, mbox)
    ensures var r := Advance(s, mbox); 6 * |r.1| + Left(r.0) < 6 * |mbox| + Left(s)
  {
    Fetched(s.m);
  }

  /** Every run ends: each step of the SPE or the host makes the measure smaller, and saves
      and restores leave it alone. */
  lemma StepMeasure(s: System, t: System, msgs: seq<Word>)
    requires Inv(s, msgs) && (SpeStep(s, t) || HostStep(s, t) || SaveStep(s, t) || RestoreStep(s, t))
    ensures if SpeStep(s, t) || HostStep(s, t) then Measure(View(t)) < Measure(View(s)) else Measure(View(t)) == Measure(View(s))
  {
    StepInv(s, t, msgs);
    if SpeStep(s, t) { AdvanceLeft(s.spe, s.mbox); }
  }

  // ---------- the host's messages ----------

  /** The messages of the host loop: the loop variable, and then the stop message. */
  method HostMessages(nr: nat) returns (msgs: seq<Word>)
    requires nr <= ONES
    ensures |msgs| == nr + 1 && InOrder(msgs[..nr]) && msgs[nr] == ONES
  {
    msgs := [];
    var i := 0;
    while i < nr
      invariant 0 <= i <= nr && |msgs| == i && InOrder(msgs)
    {
      var msg: Word := i;
      msgs := msgs + [msg];
      i := i + 1;
    }
    assert (msgs + [ONES])[..nr] == msgs;
    msgs := msgs + [ONES];
  }

  /** With the host's messages the program can only stop with 0x1337, and not before it has
      read them all: the host never sees an early exit, and spu_run returns 0x13370002. */
  lemma HostSucceeds(s: System, msgs: seq<Word>, nr: nat)
    requires nr <= ONES && |msgs| == nr + 1 && InOrder(msgs[..nr]) && msgs[nr] == ONES
    requires Inv(s, msgs) && (AtEnd(s) || s.spe.run.Stopped?)
    ensures s.spe.run == Stopped(0x1337) && RunCode(0x1337) == 0x1337_0002
    ensures s.mbox == [] && s.todo == [] && s.spe.got == msgs
  {
    if !s.spe.run.Stopped? { EndVerdict(s, msgs); }
    StoppedVerdict(s, msgs);
    var n := |s.spe.got| - 1;
    if n < nr { Earlier(msgs, nr, n); }
  }

  // ---------- runs ----------

  ghost predicate Step(s: System, t: System) {
    SpeStep(s, t) || HostStep(s, t) || SaveStep(s, t) || RestoreStep(s, t)
  }

  ghost predicate IsRun(run: seq<System>) {
    run != [] && forall i {:trigger run[i]} :: 0 < i < |run| ==> Step(run[i - 1], run[i])
  }

  /** How many steps of a run are of the SPE or the host. */
  ghost function Work(run: seq<System>): nat {
    if |run| < 2 then 0
    else Work(run[..|run| - 1]) + if SpeStep(run[|run| - 2], run[|run| - 1]) || HostStep(run[|run| - 2], run[|run| - 1]) then 1 else 0
  }

  lemma RunShorter(run: seq<System>)
    requires IsRun(run) && |run| > 1
    ensures IsRun(run[..|run| - 1]) && Step(run[|run| - 2], run[|run| - 1])
  {
    var n := |run| - 1;
    forall i | 0 < i < n ensures Step(run[..n][i - 1], run[..n][i]) { assert Step(run[i - 1], run[i]); }
    assert Step(run[n - 1], run[n]);
  }

  lemma {:induction false} RunInv(run: seq<System>, msgs: seq<Word>)
    requires IsRun(run) && Initial(run[0], msgs)
    ensures Inv(run[|run| - 1], msgs) && Work(run) + Measure(View(run[|run| - 1])) <= Measure(View(run[0]))
    decreases |run|
  {
    if |run| == 1 {
      InitialInv(run[0], msgs);
    } else {
      var s, t := run[|run| - 2], run[|run| - 1];
      RunShorter(run);
      RunInv(run[..|run| - 1], msgs);
      StepInv(s, t, msgs);
      StepMeasure(s, t, msgs);
    }
  }

  /** Every run over every stream, however often the context is scheduled out: the SPE and the
      host make a bounded number of steps, a program that has stopped has reached the verdict
      on the whole stream, and so has one that can go no further. */
  lemma EveryRun(run: seq<System>, msgs: seq<Word>)
    requires IsRun(run) && Initial(run[0], msgs)
    ensures var s := run[|run| - 1];
            Work(run) <= Measure(run[0]) && (s.spe.run.Stopped? || AtEnd(s) ==> Verdict(msgs, s.spe.run))
  {
    var s := run[|run| - 1];
    RunInv(run, msgs);
    assert View(run[0]) == run[0];
    if s.spe.run.Stopped? { StoppedVerdict(s, msgs); } else if AtEnd(s) { EndVerdict(s, msgs); }
  }
}
