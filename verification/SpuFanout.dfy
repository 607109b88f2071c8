/** tests/20-scheduler/sched_multiple.c: a host that writes to many SPEs in a given pattern,
    each of which counts the messages it gets. */
module SpuFanout {
  import opened Words
  import opened Spu
  import opened SpuMail

  /** The words from address 0x10 on; the first quadword is the counter. */
  function Program(): seq<Word> {
    [0x4080_0007, 0x32f8_0005, 0x01a0_0e83, 0x01a0_0e84, 0x1c00_4387, 0x2080_0007,
     0x7801_0286, 0x2000_0106, 0x0000_1337, 0x7801_0188, 0x217f_fc88, 0x0000_0000]
  }

  const ENTRY: nat := 4

  function Listing(n: nat): Instruction {
    if n == 0 then Il(7, 0)
    else if n == 1 then Fsmbi(5, 0xf000)
    else if n == 2 then Rdch(3, MBOX_CHANNEL)
    else if n == 3 then Rdch(4, MBOX_CHANNEL)
    else if n == 4 then Ai(7, 7, 1)
    else if n == 5 then Stqa(7, 0)
    else if n == 6 then Ceq(6, 5, 4)
    else if n == 7 then Brz(6, 2)
    else if n == 8 then Stop(0x1337)
    else if n == 9 then Ceq(8, 3, 4)
    else if n == 10 then Brnz(8, -7)
    else Stop(0)
  }

  lemma DecodedStart(n: nat)
    requires n < 3
    ensures Decode(Program()[n]) == Listing(n)
  {
    if n == 0 { assert Decode(Program()[0]) == Listing(0); }
    else if n == 1 { assert Decode(Program()[1]) == Listing(1); }
    else { assert Decode(Program()[2]) == Listing(2); }
  }

  lemma DecodedCount(n: nat)
    requires 3 <= n < 5
    ensures Decode(Program()[n]) == Listing(n)
  {
    if n == 3 { assert Decode(Program()[3]) == Listing(3); }
    else { assert Decode(Program()[4]) == Listing(4); }
  }

  lemma DecodedTest(n: nat)
    requires 5 <= n < 8
    ensures Decode(Program()[n]) == Listing(n)
  {
    if n == 5 { assert Decode(Program()[5]) == Listing(5); }
    else if n == 6 { assert Decode(Program()[6]) == Listing(6); }
    else { assert Decode(Program()[7]) == Listing(7); }
  }

  lemma DecodedLoop(n: nat)
    requires 8 <= n < 12
    ensures Decode(Program()[n]) == Listing(n)
  {
    if n == 8 { assert Decode(Program()[8]) == Listing(8); }
    else if n == 9 { assert Decode(Program()[9]) == Listing(9); }
    else if n == 10 { assert Decode(Program()[10]) == Listing(10); }
    else { assert Decode(Program()[11]) == Listing(11); }
  }

  /** The words of the program are the instructions of the listing. */
  lemma Decoded(n: nat)
    requires n < 12
    ensures Decode(Program()[n]) == Listing(n)
  {
    if n < 3 { DecodedStart(n); } else if n < 5 { DecodedCount(n); } else if n < 8 { DecodedTest(n); } else { DecodedLoop(n); }
  }

  lemma Fetched(m: Machine)
    requires Proper(m) && Loaded(m.ls, ENTRY, Program()) && ENTRY <= m.pc < ENTRY + 12
    ensures Fetch(m) == Listing(m.pc - ENTRY)
  {
    Decoded(m.pc - ENTRY);
    assert Program()[m.pc - ENTRY] == m.ls[ENTRY + (m.pc - ENTRY)];
  }

  // ---------- one SPE ----------

  /** The messages from the second to the one before position n are the first again, and no
      stop messages. */
  ghost predicate Repeats(q: seq<Word>, n: int) {
    forall j {:trigger q[j]} :: 0 < j < n && j < |q| ==> q[j] == q[0] && q[j] != ONES
  }

  /** Where the program is after it has read got. */
  ghost predicate Position(s: Spe) {
    && Proper(s.m) && Loaded(s.m.ls, ENTRY, Program())
    && var k, r, ls := |s.got|, s.m.regs, s.m.ls;
       match s.run
       case Stopped(code) =>
         && k > 1 && Repeats(s.got, k - 1) && ls[0] == Wrap(k - 1)
         && ((code == 0x1337 && s.got[k - 1] == ONES) || (code == 0 && s.got[k - 1] != ONES && s.got[k - 1] != s.got[0]))
       case Running =>
         && ENTRY <= s.m.pc < ENTRY + 12
         && var n := s.m.pc - ENTRY;
            && (n < 3 ==> k == 0)
            && (n == 1 || n == 2 ==> r[7].w0 == 0)
            && (n >= 2 ==> r[5] == Quad(ONES, 0, 0, 0))
            && (n >= 3 ==> k > 0 && r[3].w0 == s.got[0])
            && (n == 3 ==> Repeats(s.got, k) && r[7].w0 == Wrap(k - 1))
            && (n >= 4 ==> k > 1 && Repeats(s.got, k - 1) && r[4].w0 == s.got[k - 1])
            && (n == 4 ==> r[7].w0 == Wrap(k - 2))
            && (n >= 5 ==> r[7].w0 == Wrap(k - 1))
            && (n >= 6 ==> ls[0] == Wrap(k - 1))
            && (n == 7 ==> r[6].w0 == Equal(ONES, s.got[k - 1]))
            && (n >= 8 ==> (n == 8 <==> s.got[k - 1] == ONES))
            && (n == 10 ==> r[8].w0 == Equal(s.got[0], s.got[k - 1]))
            && (n == 11 ==> s.got[k - 1] != s.got[0])
  }

  lemma AdvanceStart(s: Spe, mbox: seq<Word>)
    requires Position(s) && Ready(s, mbox) && s.m.pc < ENTRY + 2
    ensures Position(Advance(s, mbox).0)
  {
    Fetched(s.m);
    MaskTopWord();
  }

  lemma AdvanceRead(s: Spe, mbox: seq<Word>)
    requires Position(s) && Ready(s, mbox) && ENTRY + 2 <= s.m.pc <= ENTRY + 3
    ensures Position(Advance(s, mbox).0)
  {
    Fetched(s.m);
  }

  lemma AdvanceCount(s: Spe, mbox: seq<Word>)
    requires Position(s) && Ready(s, mbox) && s.m.pc == ENTRY + 4
    ensures Position(Advance(s, mbox).0)
  {
    Fetched(s.m);
    WrapPlus(|s.got| - 2);
  }

  /** The store leaves the program alone: it reaches only the first quadword. */
  lemma AdvanceStore(s: Spe, mbox: seq<Word>)
    requires Position(s) && Ready(s, mbox) && s.m.pc == ENTRY + 5
    ensures Position(Advance(s, mbox).0)
  {
    Fetched(s.m);
    var t := Advance(s, mbox).0;
    forall j | 0 <= j < |Program()| ensures t.m.ls[ENTRY + j] == Program()[j] {
      assert s.m.ls[ENTRY + j] == Program()[j];
    }
  }

  lemma AdvanceTest(s: Spe, mbox: seq<Word>)
    requires Position(s) && Ready(s, mbox) && ENTRY + 6 <= s.m.pc <= ENTRY + 8
    ensures Position(Advance(s, mbox).0)
  {
    Fetched(s.m);
  }

  lemma AdvanceLoop(s: Spe, mbox: seq<Word>)
    requires Position(s) && Ready(s, mbox) && ENTRY + 9 <= s.m.pc
    ensures Position(Advance(s, mbox).0)
  {
    Fetched(s.m);
  }

  /** Every instruction keeps the program where Position says. */
  lemma AdvancePosition(s: Spe, mbox: seq<Word>)
    requires Position(s) && Ready(s, mbox)
    ensures Position(Advance(s, mbox).0)
  {
    if s.m.pc < ENTRY + 2 { AdvanceStart(s, mbox); }
    else if s.m.pc <= ENTRY + 3 { AdvanceRead(s, mbox); }
    else if s.m.pc == ENTRY + 4 { AdvanceCount(s, mbox); }
    else if s.m.pc == ENTRY + 5 { AdvanceStore(s, mbox); }
    else if s.m.pc <= ENTRY + 8 { AdvanceTest(s, mbox); }
    else { AdvanceLoop(s, mbox); }
  }

  // ---------- the host and all SPEs ----------

  /** The host is in its pattern loop, about to write entry i; or in its second loop, about
      to send the stop message to thread i, or to join it; or it has returned. */
  datatype Host = Writing(i: nat) | Stopping(i: nat) | Joining(i: nat) | Success | Failure

  datatype System = System(spes: seq<Spe>, mboxes: seq<seq<Word>>, writes: seq<nat>, host: Host, abort: bool)

  /** What the host reads from its file: the number of SPEs and the pattern, whose entries
      are bytes.  The code trusts that they name SPEs. */
  ghost predicate Dataset(n: nat, pattern: seq<nat>) {
    n < 0x100 && forall j {:trigger pattern[j]} :: 0 <= j < |pattern| ==> pattern[j] < n
  }

  ghost predicate Shape(s: System, n: nat) {
    |s.spes| == n && |s.mboxes| == n && |s.writes| == n
        && forall i {:trigger s.spes[i]} :: 0 <= i < n ==> Proper(s.spes[i].m)
  }

  ghost predicate Initial(s: System, n: nat) {
    && Shape(s, n) && s.host == Writing(0) && !s.abort
    && forall i {:trigger s.spes[i]} :: 0 <= i < n ==> s.spes[i] == Boot(Program(), ENTRY, ENTRY) && s.mboxes[i] == [] && s.writes[i] == 0
  }

  /** SPE i executes an instruction; when it stops, its thread looks at the status. */
  ghost predicate SpeStep(s: System, t: System, n: nat, i: nat) {
    && Shape(s, n) && i < n && Ready(s.spes[i], s.mboxes[i])
    && var r := Advance(s.spes[i], s.mboxes[i]);
       t == s.(spes := s.spes[i := r.0], mboxes := s.mboxes[i := r.1],
               abort := s.abort || (r.0.run.Stopped? && RunCode(r.0.run.code) != 0x1337_0002))
  }

  /** The next write of the pattern goes through. */
  ghost predicate WriteStep(s: System, t: System, n: nat, pattern: seq<nat>) {
    && Shape(s, n) && Dataset(n, pattern) && s.host.Writing? && s.host.i < |pattern|
    && var p := pattern[s.host.i];
       && |s.mboxes[p]| < MBOX_DEPTH
       && t == s.(mboxes := s.mboxes[p := s.mboxes[p] + [p]], writes := s.writes[p := s.writes[p] + 1],
                  host := if s.abort then Failure else Writing(s.host.i + 1))
  }

  /** The second loop of the host: a stop message is sent, a stopped thread is joined and
      its status checked, or a loop ends. */
  ghost predicate FinishStep(s: System, t: System, n: nat, pattern: seq<nat>) {
    && Shape(s, n)
    && match s.host
       case Writing(i) => i == |pattern| && t == s.(host := Stopping(0))
       case Stopping(i) =>
         if i < n then
           |s.mboxes[i]| < MBOX_DEPTH && t == s.(mboxes := s.mboxes[i := s.mboxes[i] + [ONES]], host := Joining(i))
         else t == s.(host := Success)
       case Joining(i) =>
         && i < n && s.spes[i].run.Stopped?
         && t == s.(host := if RunCode(s.spes[i].run.code) != 0x1337_0002 then Failure else Stopping(i + 1))
       case _ => false
  }

  ghost predicate Step(s: System, t: System, n: nat, pattern: seq<nat>) {
    (exists i: nat :: SpeStep(s, t, n, i)) || WriteStep(s, t, n, pattern) || FinishStep(s, t, n, pattern)
  }

  // ---------- what has been sent ----------

  /** How often i occurs in the first h entries of the pattern. */
  ghost function Count(pattern: seq<nat>, h: nat, i: nat): nat
    requires h <= |pattern|
  {
    if h == 0 then 0 else Count(pattern, h - 1, i) + if pattern[h - 1] == i then 1 else 0
  }

  /** How many entries of the pattern the host has written. */
  ghost function Written(host: Host, pattern: seq<nat>): nat {
    match host
    case Writing(i) => i
    case _ => |pattern|
  }

  /** Whether the stop message for SPE i has been sent. */
  ghost predicate StopSent(host: Host, i: nat) {
    match host
    case Writing(_) => false
    case Stopping(j) => i < j
    case Joining(j) => i <= j
    case _ => true
  }

  /** q is what SPE i is sent: its number, w times, and then perhaps the stop message. */
  ghost predicate IsSent(q: seq<Word>, i: nat, w: nat, stop: bool) {
    && |q| == w + (if stop then 1 else 0)
    && (forall j {:trigger q[j]} :: 0 <= j < w ==> q[j] == i)
    && (stop ==> q[w] == ONES)
  }

  ghost predicate SpeInv(spe: Spe, mbox: seq<Word>, i: nat, w: nat, stop: bool) {
    Position(spe) && IsSent(spe.got + mbox, i, w, stop)
  }

  ghost predicate Inv(s: System, n: nat, pattern: seq<nat>) {
    && Shape(s, n) && Dataset(n, pattern) && !s.abort && s.host != Failure
    && Written(s.host, pattern) <= |pattern|
    && (s.host.Stopping? ==> s.host.i <= n) && (s.host.Joining? ==> s.host.i < n)
    && (forall i {:trigger s.spes[i]} {:trigger s.mboxes[i]} {:trigger s.writes[i]} :: 0 <= i < n ==>
          && s.writes[i] == Count(pattern, Written(s.host, pattern), i)
          && SpeInv(s.spes[i], s.mboxes[i], i, s.writes[i], StopSent(s.host, i)))
    && (forall i {:trigger s.spes[i]} :: 0 <= i < n && (s.host == Success || (s.host.Stopping? && i < s.host.i) || (s.host.Joining? && i < s.host.i)) ==>
          s.spes[i].run == Stopped(0x1337))
  }

  // ---------- what one SPE can have made of it ----------

  /** An SPE stops only with 0x1337, only when it has read everything up to its stop
      message, and only if its number came before; its counter then is the number of writes. */
  lemma StoppedWith(spe: Spe, mbox: seq<Word>, i: nat, w: nat, stop: bool)
    requires SpeInv(spe, mbox, i, w, stop) && i < 0x100 && spe.run.Stopped?
    ensures spe.run == Stopped(0x1337) && stop && w > 0 && mbox == [] && spe.m.ls[0] == Wrap(w)
  {
    var q, k := spe.got + mbox, |spe.got|;
    assert forall j :: 0 <= j < k ==> q[j] == spe.got[j];
    assert q[0] == spe.got[0] && q[k - 1] == spe.got[k - 1];
  }

  /** An SPE that is running can go on or waits with its mailbox empty.  Only one whose
      number never came can still wait after the stop message. */
  lemma WaitingWith(spe: Spe, mbox: seq<Word>, i: nat, w: nat, stop: bool)
    requires SpeInv(spe, mbox, i, w, stop) && i < 0x100 && spe.run == Running && !Ready(spe, mbox)
    ensures mbox == [] && (stop ==> w == 0 && spe.got == [ONES] && spe.m.regs[3].w0 == ONES)
  {
    Fetched(spe.m);
    var k := |spe.got|;
    assert spe.got + mbox == spe.got;
    if stop { assert spe.got[w] == ONES; }
  }

  // ---------- the invariant ----------

  lemma InitialInv(s: System, n: nat, pattern: seq<nat>)
    requires Initial(s, n) && Dataset(n, pattern)
    ensures Inv(s, n, pattern)
  {
    forall i | 0 <= i < n ensures SpeInv(s.spes[i], s.mboxes[i], i, 0, false) && s.writes[i] == 0 {
      assert s.spes[i].got + s.mboxes[i] == [];
    }
  }

  lemma SpeStepInv(s: System, t: System, n: nat, pattern: seq<nat>, i: nat)
    requires Inv(s, n, pattern) && SpeStep(s, t, n, i)
    ensures Inv(t, n, pattern)
  {
    var r := Advance(s.spes[i], s.mboxes[i]);
    AdvancePosition(s.spes[i], s.mboxes[i]);
    assert SpeInv(r.0, r.1, i, s.writes[i], StopSent(s.host, i));
    if r.0.run.Stopped? { StoppedWith(r.0, r.1, i, s.writes[i], StopSent(s.host, i)); }
  }

  lemma WriteStepInv(s: System, t: System, n: nat, pattern: seq<nat>)
    requires Inv(s, n, pattern) && WriteStep(s, t, n, pattern)
    ensures Inv(t, n, pattern)
  {
    var p := pattern[s.host.i];
    var q := s.spes[p].got + s.mboxes[p];
    assert s.spes[p].got + (s.mboxes[p] + [p]) == q + [p];
    assert SpeInv(t.spes[p], t.mboxes[p], p, t.writes[p], false);
  }

  lemma FinishStepInv(s: System, t: System, n: nat, pattern: seq<nat>)
    requires Inv(s, n, pattern) && FinishStep(s, t, n, pattern)
    ensures Inv(t, n, pattern)
  {
    if s.host.Stopping? && s.host.i < n {
      var i := s.host.i;
      assert s.spes[i].got + (s.mboxes[i] + [ONES]) == (s.spes[i].got + s.mboxes[i]) + [ONES];
      assert SpeInv(t.spes[i], t.mboxes[i], i, t.writes[i], true);
    }
    if s.host.Joining? {
      var i := s.host.i;
      StoppedWith(s.spes[i], s.mboxes[i], i, s.writes[i], StopSent(s.host, i));
    }
  }

  lemma StepInv(s: System, t: System, n: nat, pattern: seq<nat>)
    requires Inv(s, n, pattern) && Step(s, t, n, pattern)
    ensures Inv(t, n, pattern)
  {
    if WriteStep(s, t, n, pattern) { WriteStepInv(s, t, n, pattern); }
    else if FinishStep(s, t, n, pattern) { FinishStepInv(s, t, n, pattern); }
    else { var i: nat :| SpeStep(s, t, n, i); SpeStepInv(s, t, n, pattern, i); }
  }

  // ---------- the end of a run ----------

  ghost predicate CanStep(s: System, n: nat, pattern: seq<nat>) {
    exists t :: Step(s, t, n, pattern)
  }

  lemma ReadySteps(s: System, n: nat, pattern: seq<nat>, i: nat)
    requires Shape(s, n) && i < n && Ready(s.spes[i], s.mboxes[i])
    ensures CanStep(s, n, pattern)
  {
    var r := Advance(s.spes[i], s.mboxes[i]);
    var t := s.(spes := s.spes[i := r.0], mboxes := s.mboxes[i := r.1],
                abort := s.abort || (r.0.run.Stopped? && RunCode(r.0.run.code) != 0x1337_0002));
    assert SpeStep(s, t, n, i);
    assert Step(s, t, n, pattern);
  }

  /** A full mailbox is being emptied: the SPE whose stop message is still to come is ready. */
  lemma FullIsReady(s: System, n: nat, pattern: seq<nat>, i: nat)
    requires Inv(s, n, pattern) && i < n && s.mboxes[i] != [] && !StopSent(s.host, i)
    ensures CanStep(s, n, pattern)
  {
    assert SpeInv(s.spes[i], s.mboxes[i], i, s.writes[i], false);
    if s.spes[i].run.Stopped? { StoppedWith(s.spes[i], s.mboxes[i], i, s.writes[i], false); }
    else if !Ready(s.spes[i], s.mboxes[i]) { WaitingWith(s.spes[i], s.mboxes[i], i, s.writes[i], false); }
    else { ReadySteps(s, n, pattern, i); }
  }

  lemma FinishSteps(s: System, t: System, n: nat, pattern: seq<nat>)
    requires FinishStep(s, t, n, pattern)
    ensures CanStep(s, n, pattern)
  {
    assert Step(s, t, n, pattern);
  }

  lemma WritingGoesOn(s: System, n: nat, pattern: seq<nat>)
    requires Inv(s, n, pattern) && s.host.Writing?
    ensures CanStep(s, n, pattern)
  {
    var h := s.host.i;
    if h < |pattern| {
      var p := pattern[h];
      if s.mboxes[p] != [] {
        FullIsReady(s, n, pattern, p);
      } else {
        var t := s.(mboxes := s.mboxes[p := s.mboxes[p] + [p]], writes := s.writes[p := s.writes[p] + 1],
                    host := if s.abort then Failure else Writing(h + 1));
        assert WriteStep(s, t, n, pattern);
        assert Step(s, t, n, pattern);
      }
    } else {
      FinishSteps(s, s.(host := Stopping(0)), n, pattern);
    }
  }

  lemma StoppingGoesOn(s: System, n: nat, pattern: seq<nat>)
    requires Inv(s, n, pattern) && s.host.Stopping?
    ensures CanStep(s, n, pattern)
  {
    var i := s.host.i;
    if i == n {
      FinishSteps(s, s.(host := Success), n, pattern);
    } else if s.mboxes[i] != [] {
      FullIsReady(s, n, pattern, i);
    } else {
      FinishSteps(s, s.(mboxes := s.mboxes[i := s.mboxes[i] + [ONES]], host := Joining(i)), n, pattern);
    }
  }

  /** SPE i waits for a second message although its stop message has been sent: it has taken
      that for its number. */
  ghost predicate WaitsForever(s: System, pattern: seq<nat>, i: nat) {
    && i < |s.spes| && i < |s.mboxes|
    && Count(pattern, |pattern|, i) == 0 && s.spes[i].run == Running
    && s.spes[i].got == [ONES] && s.mboxes[i] == [] && |s.spes[i].m.regs| == 128 && s.spes[i].m.regs[3].w0 == ONES
  }

  lemma JoiningGoesOn(s: System, n: nat, pattern: seq<nat>)
    requires Inv(s, n, pattern) && s.host.Joining? && s.spes[s.host.i].run.Stopped?
    ensures CanStep(s, n, pattern)
  {
    var i := s.host.i;
    FinishSteps(s, s.(host := if RunCode(s.spes[i].run.code) != 0x1337_0002 then Failure else Stopping(i + 1)), n, pattern);
  }

  lemma JoiningWaits(s: System, n: nat, pattern: seq<nat>)
    requires Inv(s, n, pattern) && s.host.Joining?
    requires var i := s.host.i; s.spes[i].run == Running && !Ready(s.spes[i], s.mboxes[i])
    ensures WaitsForever(s, pattern, s.host.i)
  {
    var i := s.host.i;
    assert SpeInv(s.spes[i], s.mboxes[i], i, s.writes[i], true);
    WaitingWith(s.spes[i], s.mboxes[i], i, s.writes[i], true);
  }

  /** The only place a run can get stuck before the host returns is the join of an SPE to
      which nothing but the stop message was ever written: it has taken that for its number. */
  lemma StuckAt(s: System, n: nat, pattern: seq<nat>)
    requires Inv(s, n, pattern) && !CanStep(s, n, pattern)
    ensures s.host == Success ||
            (s.host.Joining? && WaitsForever(s, pattern, s.host.i))
  {
    if s.host.Writing? {
      WritingGoesOn(s, n, pattern);
    } else if s.host.Stopping? {
      StoppingGoesOn(s, n, pattern);
    } else if s.host.Joining? {
      var i := s.host.i;
      if s.spes[i].run.Stopped? { JoiningGoesOn(s, n, pattern); }
      else if Ready(s.spes[i], s.mboxes[i]) { ReadySteps(s, n, pattern, i); }
      else { JoiningWaits(s, n, pattern); }
    }
  }

  /** No run in which every number occurs gets stuck before the host has returned. */
  lemma NoDeadlock(s: System, n: nat, pattern: seq<nat>)
    requires Inv(s, n, pattern) && !CanStep(s, n, pattern)
    requires forall i :: 0 <= i < n ==> Count(pattern, |pattern|, i) > 0
    ensures s.host == Success
  {
    StuckAt(s, n, pattern);
  }

  /** When the host has returned successfully, every SPE has stopped with 0x1337, and the
      first word of its local store is exactly the host's count of its writes. */
  lemma SuccessMeans(s: System, n: nat, pattern: seq<nat>, i: nat)
    requires Inv(s, n, pattern) && s.host == Success && i < n
    ensures s.spes[i].run == Stopped(0x1337) && s.spes[i].m.ls[0] == Wrap(s.writes[i]) && s.mboxes[i] == []
    ensures s.writes[i] == Count(pattern, |pattern|, i) > 0
  {
    assert SpeInv(s.spes[i], s.mboxes[i], i, s.writes[i], true);
    StoppedWith(s.spes[i], s.mboxes[i], i, s.writes[i], true);
  }

  /** An SPE whose number never occurs never stops, in any run. */
  lemma NeverStops(s: System, n: nat, pattern: seq<nat>, i: nat)
    requires Inv(s, n, pattern) && i < n && Count(pattern, |pattern|, i) == 0
    ensures s.spes[i].run == Running && s.host != Success
  {
    CountGrows(pattern, Written(s.host, pattern), i);
    assert SpeInv(s.spes[i], s.mboxes[i], i, s.writes[i], StopSent(s.host, i));
    if s.spes[i].run.Stopped? { StoppedWith(s.spes[i], s.mboxes[i], i, s.writes[i], StopSent(s.host, i)); }
  }

  lemma {:induction false} CountGrows(pattern: seq<nat>, h: nat, i: nat)
    requires h <= |pattern|
    ensures Count(pattern, h, i) <= Count(pattern, |pattern|, i)
    decreases |pattern| - h
  {
    if h < |pattern| { CountGrows(pattern, h + 1, i); }
  }

  /** A run ends with the host's success exactly when every number occurs in the pattern. */
  lemma EndsWellIff(s: System, n: nat, pattern: seq<nat>)
    requires Inv(s, n, pattern) && !CanStep(s, n, pattern)
    ensures s.host == Success <==> forall i :: 0 <= i < n ==> Count(pattern, |pattern|, i) > 0
  {
    if s.host == Success {
      forall i | 0 <= i < n ensures Count(pattern, |pattern|, i) > 0 { SuccessMeans(s, n, pattern, i); }
    } else {
      StuckAt(s, n, pattern);
      assert !(Count(pattern, |pattern|, s.host.i) > 0);
    }
  }

  // ---------- every run ends ----------

  /** How many instructions the program executes at most before it waits for a message. */
  ghost function Left(s: Spe): nat {
    if s.run.Stopped? || s.m.pc < ENTRY then 0
    else
      var n := s.m.pc - ENTRY;
      if n < 3 then 4 - n else if n < 8 then (if n == 3 then 1 else 11 - n) else if n == 9 then 3 else if n == 10 then 2 else 1
  }

  lemma AdvanceLeft(s: Spe, mbox: seq<Word>)
    requires Position(s) && Ready(s, mbox)
    ensures var r := Advance(s, mbox); 8 * |r.1| + Left(r.0) < 8 * |mbox| + Left(s)
  {
    Fetched(s.m);
  }

  ghost function Loads(s: System, n: nat): (q: seq<nat>)
    requires Shape(s, n)
    ensures |q| == n
  {
    seq(n, i requires 0 <= i < n => 8 * |s.mboxes[i]| + Left(s.spes[i]))
  }

  ghost function HostLeft(host: Host, n: nat, len: nat): int {
    match host
    case Writing(i) => 9 * (len - i) + 11 * n + 2
    case Stopping(i) => 11 * (n - i) + 1
    case Joining(i) => 11 * (n - i) - 8
    case _ => 0
  }

  ghost function Measure(s: System, n: nat, pattern: seq<nat>): (k: int)
    requires Shape(s, n)
    ensures Inv(s, n, pattern) ==> k >= 0
  {
    Sum(Loads(s, n)) + HostLeft(s.host, n, |pattern|)
  }

  lemma SpeStepMeasure(s: System, t: System, n: nat, pattern: seq<nat>, i: nat)
    requires Inv(s, n, pattern) && Shape(t, n) && SpeStep(s, t, n, i)
    ensures Measure(t, n, pattern) < Measure(s, n, pattern)
  {
    var q, r := Loads(s, n), Advance(s.spes[i], s.mboxes[i]);
    assert SpeInv(s.spes[i], s.mboxes[i], i, s.writes[i], StopSent(s.host, i));
    AdvanceLeft(s.spes[i], s.mboxes[i]);
    var v: nat := 8 * |r.1| + Left(r.0);
    assert Loads(t, n) == q[i := v];
    SumUpdate(q, i, v);
  }

  lemma WriteStepMeasure(s: System, t: System, n: nat, pattern: seq<nat>)
    requires Inv(s, n, pattern) && Shape(t, n) && WriteStep(s, t, n, pattern)
    ensures Measure(t, n, pattern) < Measure(s, n, pattern)
  {
    var q, p := Loads(s, n), pattern[s.host.i];
    assert Loads(t, n) == q[p := q[p] + 8];
    SumUpdate(q, p, q[p] + 8);
  }

  lemma FinishStepMeasure(s: System, t: System, n: nat, pattern: seq<nat>)
    requires Inv(s, n, pattern) && Shape(t, n) && t.host != Failure && FinishStep(s, t, n, pattern)
    ensures Measure(t, n, pattern) < Measure(s, n, pattern)
  {
    var q := Loads(s, n);
    if s.host.Stopping? && s.host.i < n {
      var i := s.host.i;
      assert Loads(t, n) == q[i := q[i] + 8];
      SumUpdate(q, i, q[i] + 8);
    } else {
      assert Loads(t, n) == q;
    }
  }

  /** No run goes on for ever: every step makes the measure smaller. */
  lemma StepMeasure(s: System, t: System, n: nat, pattern: seq<nat>)
    requires Inv(s, n, pattern) && Step(s, t, n, pattern)
    ensures Inv(t, n, pattern) && Shape(t, n) && Measure(t, n, pattern) < Measure(s, n, pattern)
  {
    StepInv(s, t, n, pattern);
    if WriteStep(s, t, n, pattern) { WriteStepMeasure(s, t, n, pattern); }
    else if FinishStep(s, t, n, pattern) { FinishStepMeasure(s, t, n, pattern); }
    else { var i: nat :| SpeStep(s, t, n, i); SpeStepMeasure(s, t, n, pattern, i); }
  }

  // ---------- runs ----------

  ghost predicate IsRun(run: seq<System>, n: nat, pattern: seq<nat>) {
    run != [] && forall i {:trigger run[i]} :: 0 < i < |run| ==> Step(run[i - 1], run[i], n, pattern)
  }

  lemma RunShorter(run: seq<System>, n: nat, pattern: seq<nat>)
    requires IsRun(run, n, pattern) && |run| > 1
    ensures IsRun(run[..|run| - 1], n, pattern) && Step(run[|run| - 2], run[|run| - 1], n, pattern)
  {
    var m := |run| - 1;
    forall i | 0 < i < m ensures Step(run[..m][i - 1], run[..m][i], n, pattern) { assert Step(run[i - 1], run[i], n, pattern); }
    assert Step(run[m - 1], run[m], n, pattern);
  }

  lemma {:induction false} RunInv(run: seq<System>, n: nat, pattern: seq<nat>)
    requires IsRun(run, n, pattern) && Initial(run[0], n) && Dataset(n, pattern)
    ensures Inv(run[|run| - 1], n, pattern) && Shape(run[0], n)
    ensures |run| - 1 + Measure(run[|run| - 1], n, pattern) <= Measure(run[0], n, pattern)
    decreases |run|
  {
    if |run| == 1 {
      InitialInv(run[0], n, pattern);
    } else {
      RunShorter(run, n, pattern);
      RunInv(run[..|run| - 1], n, pattern);
      StepMeasure(run[|run| - 2], run[|run| - 1], n, pattern);
    }
  }

  /** Every run over every pattern, in any interleaving: it has bounded length, and where it
      can go no further the host has returned successfully exactly if every number occurs;
      then every SPE has stopped with 0x1337 and holds the host's count for it. */
  lemma EveryRun(run: seq<System>, n: nat, pattern: seq<nat>)
    requires IsRun(run, n, pattern) && Initial(run[0], n) && Dataset(n, pattern)
    ensures var s := run[|run| - 1];
            && Shape(run[0], n) && Shape(s, n) && |run| <= 1 + Measure(run[0], n, pattern)
            && (!CanStep(s, n, pattern) ==> (s.host == Success <==> forall i :: 0 <= i < n ==> Count(pattern, |pattern|, i) > 0))
            && (s.host == Success ==> forall i :: 0 <= i < n ==>
                  s.spes[i].run == Stopped(0x1337) && s.spes[i].m.ls[0] == Wrap(s.writes[i])
                      && s.writes[i] == Count(pattern, |pattern|, i))
            && (forall i :: 0 <= i < n && Count(pattern, |pattern|, i) == 0 ==> s.spes[i].run == Running)
  {
    var s := run[|run| - 1];
    RunInv(run, n, pattern);
    if !CanStep(s, n, pattern) { EndsWellIff(s, n, pattern); }
    if s.host == Success {
      forall i | 0 <= i < n
        ensures s.spes[i].run == Stopped(0x1337) && s.spes[i].m.ls[0] == Wrap(s.writes[i])
                && s.writes[i] == Count(pattern, |pattern|, i)
      {
        SuccessMeans(s, n, pattern, i);
      }
    }
    forall i | 0 <= i < n && Count(pattern, |pattern|, i) == 0
        ensures s.spes[i].run == Running { NeverStops(s, n, pattern, i); }
  }
}
