/** tests/07-lsmap/04-ppe-running.c: a thread of the host and a running SPE that wait for
    each other over the first quadword of the local store. */
module SpuHandshake {
  import opened Words
  import opened Spu
  import opened SpuMail

  /** The words from address 0x10 on. */
  function Program(): seq<Word> {
    [0x40ff_ff83, 0x2080_0003, 0x3080_0003, 0x217f_ff83, 0x0000_1337]
  }

  const ENTRY: nat := 4

  function Listing(n: nat): Instruction {
    if n == 0 then Il(3, -1)
    else if n == 1 then Stqa(3, 0)
    else if n == 2 then Lqa(3, 0)
    else if n == 3 then Brnz(3, -1)
    else Stop(0x1337)
  }

  lemma Decoded(n: nat)
    requires n < 5
    ensures Decode(Program()[n]) == Listing(n)
  {
  }

  lemma Fetched(m: Machine)
    requires Proper(m) && Loaded(m.ls, ENTRY, Program()) && ENTRY <= m.pc < ENTRY + 5
    ensures Fetch(m) == Listing(m.pc - ENTRY)
  {
    Decoded(m.pc - ENTRY);
    assert Program()[m.pc - ENTRY] == m.ls[ENTRY + (m.pc - ENTRY)];
  }

  // ---------- bitwise and ----------

  function And(a: nat, b: nat): (c: nat)
    ensures c <= a && c <= b
  {
    if a == 0 || b == 0 then 0 else 2 * And(a / 2, b / 2) + if a % 2 == 1 && b % 2 == 1 then 1 else 0
  }

  /** The bits of a & b are all ones exactly when those of a and of b are. */
  lemma {:induction false} AllOnes(a: nat, b: nat, width: nat)
    requires a < Power(width) && b < Power(width)
    ensures And(a, b) == Power(width) - 1 <==> a == Power(width) - 1 && b == Power(width) - 1
  {
    if width > 0 && a > 0 && b > 0 {
      AllOnes(a / 2, b / 2, width - 1);
      if And(a, b) == Power(width) - 1 { OddPart(a, b, width); }
    }
  }

  lemma OddPart(a: nat, b: nat, width: nat)
    requires width > 0 && a > 0 && b > 0 && And(a, b) == Power(width) - 1
    ensures a % 2 == 1 && b % 2 == 1 && And(a / 2, b / 2) == Power(width - 1) - 1
  {
  }

  lemma WordPower()
    ensures Power(32) == WORD
  {
    assert Power(4) == 16 && Power(8) == 0x100;
    assert Power(12) == 0x1000 && Power(16) == 0x1_0000;
    assert Power(20) == 0x10_0000 && Power(24) == 0x100_0000;
    assert Power(28) == 0x1000_0000;
  }

  lemma AndOnes(a: Word, b: Word)
    ensures And(a, b) < WORD && (And(a, b) == ONES <==> a == ONES && b == ONES)
  {
    WordPower();
    AllOnes(a, b, 32);
  }

  // ---------- the two threads ----------

  /** The host's thread: it loads the four words, in any order, and takes their conjunction;
      it starts again until that is all ones; then it stores zeros, in any order; then it is
      done. */
  datatype Ppe = Spinning(loaded: set<nat>, acc: Word) | Clearing(cleared: set<nat>) | Finished

  datatype System = System(spe: Spe, ppe: Ppe)

  const FOUR: set<nat> := {0, 1, 2, 3}

  ghost predicate Initial(s: System) {
    s == System(Boot(Program(), ENTRY, ENTRY), Spinning({}, ONES))
  }

  ghost predicate SpeStep(s: System, t: System) {
    Proper(s.spe.m) && Ready(s.spe, []) && t == s.(spe := Advance(s.spe, []).0)
  }

  ghost predicate LoadStep(s: System, t: System, j: nat) {
    && Proper(s.spe.m) && s.ppe.Spinning? && j in FOUR && j !in s.ppe.loaded
    && t.spe == s.spe && t.ppe.Spinning? && t.ppe.loaded == s.ppe.loaded + {j}
    && t.ppe.acc == And(s.ppe.acc, s.spe.m.ls[j])
  }

  /** All four words have been loaded. */
  ghost predicate DecideStep(s: System, t: System) {
    && s.ppe.Spinning? && s.ppe.loaded == FOUR
    && t == s.(ppe := if s.ppe.acc == ONES then Clearing({}) else Spinning({}, ONES))
  }

  ghost predicate ClearStep(s: System, t: System, j: nat) {
    && Proper(s.spe.m) && s.ppe.Clearing? && j in FOUR && j !in s.ppe.cleared
    && var zero: Word := 0;
       t == System(s.spe.(m := s.spe.m.(ls := s.spe.m.ls[j := zero])), Clearing(s.ppe.cleared + {j}))
  }

  ghost predicate ReturnStep(s: System, t: System) {
    s.ppe.Clearing? && s.ppe.cleared == FOUR && t == s.(ppe := Finished)
  }

  ghost predicate Step(s: System, t: System) {
    || SpeStep(s, t) || DecideStep(s, t) || ReturnStep(s, t)
    || (exists j :: LoadStep(s, t, j)) || (exists j :: ClearStep(s, t, j))
  }

  // ---------- the invariant ----------

  /** The SPE has stored its quadword of ones. */
  ghost predicate Stored(spe: Spe) {
    spe.run.Stopped? || spe.m.pc >= ENTRY + 2
  }

  /** The host's thread has set word j to zero. */
  ghost predicate Cleared(ppe: Ppe, j: nat) {
    ppe == Finished || (ppe.Clearing? && j in ppe.cleared)
  }

  ghost predicate Position(s: System) {
    && Proper(s.spe.m) && Loaded(s.spe.m.ls, ENTRY, Program())
    && match s.spe.run
       case Stopped(code) => code == 0x1337 && Cleared(s.ppe, 0)
       case Running =>
         && ENTRY <= s.spe.m.pc < ENTRY + 5
         && var n, r := s.spe.m.pc - ENTRY, s.spe.m.regs[3];
            && (n == 1 ==> r == Splat(ONES))
            && (n == 3 && r.w0 != ONES ==> r.w0 == 0 && Cleared(s.ppe, 0))
            && (n == 4 ==> Cleared(s.ppe, 0))
  }

  ghost predicate Inv(s: System) {
    && Position(s)
    && (s.ppe.Spinning? ==> s.ppe.loaded <= FOUR)
    && (s.ppe.Clearing? ==> s.ppe.cleared <= FOUR)
    && (!Stored(s.spe) ==> s.ppe.Spinning? && (s.ppe.loaded != {} ==> s.ppe.acc != ONES))
    && (s.ppe.Spinning? && s.ppe.loaded == {} ==> s.ppe.acc == ONES)
    && forall j {:trigger s.spe.m.ls[j]} :: 0 <= j < 4 ==>
         s.spe.m.ls[j] == if Stored(s.spe) && !Cleared(s.ppe, j) then ONES else 0
  }

  lemma InitialInv(s: System)
    requires Initial(s)
    ensures Inv(s)
  {
  }

  lemma SpeStepInv(s: System, t: System)
    requires Inv(s) && SpeStep(s, t)
    ensures Inv(t)
  {
    Fetched(s.spe.m);
    if s.spe.m.pc == ENTRY + 1 {
      forall j | 0 <= j < |Program()| ensures t.spe.m.ls[ENTRY + j] == Program()[j] {
        assert s.spe.m.ls[ENTRY + j] == Program()[j];
      }
    }
  }

  lemma LoadStepInv(s: System, t: System, j: nat)
    requires Inv(s) && LoadStep(s, t, j)
    ensures Inv(t)
  {
    AndOnes(s.ppe.acc, s.spe.m.ls[j]);
    assert s.spe.m.ls[j] == s.spe.m.ls[j];
  }

  lemma ClearStepInv(s: System, t: System, j: nat)
    requires Inv(s) && ClearStep(s, t, j)
    ensures Inv(t)
  {
    forall i | 0 <= i < |Program()| ensures t.spe.m.ls[ENTRY + i] == Program()[i] {
      assert s.spe.m.ls[ENTRY + i] == Program()[i];
    }
  }

  /** Every step of every interleaving keeps the invariant. */
  lemma StepInv(s: System, t: System)
    requires Inv(s) && Step(s, t)
    ensures Inv(t)
  {
    if SpeStep(s, t) { SpeStepInv(s, t); }
    if j :| LoadStep(s, t, j) { LoadStepInv(s, t, j); }
    if j :| ClearStep(s, t, j) { ClearStepInv(s, t, j); }
  }

  // ---------- what it means ----------

  /** The host's thread leaves its loop only after the SPE's store, the SPE stops only after
      word 0 has been cleared, and when both have finished the quadword is zero. */
  lemma Ordered(s: System)
    requires Inv(s)
    ensures !s.ppe.Spinning? ==> Stored(s.spe)
    ensures s.spe.run.Stopped? ==> s.spe.run == Stopped(0x1337) && Cleared(s.ppe, 0) && s.spe.m.ls[0] == 0
    ensures s.spe.run.Stopped? && s.ppe == Finished ==> forall j :: 0 <= j < 4 ==> s.spe.m.ls[j] == 0
  {
  }

  ghost predicate Ended(s: System) {
    s.spe.run.Stopped? && s.ppe == Finished
  }

  /** How far the end is, if the right thread is always the next one. */
  ghost function Distance(s: System): nat
    requires Proper(s.spe.m)
  {
    if !Stored(s.spe) then (if s.spe.m.pc == ENTRY + 1 then 101 else 102)
    else match s.ppe
      case Spinning(loaded, acc) => (if acc == ONES then 40 else 60) + (4 - if |loaded| > 4 then 4 else |loaded|)
      case Clearing(cleared) => 20 + (4 - if |cleared| > 4 then 4 else |cleared|)
      case Finished =>
        if s.spe.run.Stopped? then 0
        else if s.spe.m.pc == ENTRY + 4 then 1
        else if s.spe.m.pc == ENTRY + 2 then 3
        else if s.spe.m.regs[3].w0 == 0 then 2 else 4
  }

  lemma Unfinished(q: set<nat>) returns (j: nat)
    requires q <= FOUR && q != FOUR
    ensures j in FOUR && j !in q && |q + {j}| == |q| + 1 <= 4
  {
    j :| j in FOUR && j !in q;
    SubsetSize(q + {j});
  }

  lemma SubsetSize(q: set<nat>)
    requires q <= FOUR
    ensures |q| <= 4 && (q == FOUR ==> |q| == 4)
  {
    assert q == FOUR - (FOUR - q);
  }

  lemma NearerSpe(s: System) returns (t: System)
    requires Inv(s) && !Ended(s) && (!Stored(s.spe) || s.ppe == Finished)
    ensures Step(s, t) && Inv(t) && Distance(t) < Distance(s)
  {
    Fetched(s.spe.m);
    t := s.(spe := Advance(s.spe, []).0);
    assert SpeStep(s, t);
    SpeStepInv(s, t);
    if s.ppe.Spinning? { SubsetSize(s.ppe.loaded); }
  }

  lemma NearerSpinning(s: System) returns (t: System)
    requires Inv(s) && Stored(s.spe) && s.ppe.Spinning?
    ensures Step(s, t) && Inv(t) && Distance(t) < Distance(s)
  {
    SubsetSize(s.ppe.loaded);
    if s.ppe.loaded == FOUR {
      t := s.(ppe := if s.ppe.acc == ONES then Clearing({}) else Spinning({}, ONES));
      assert DecideStep(s, t);
    } else {
      var j := Unfinished(s.ppe.loaded);
      AndOnes(s.ppe.acc, s.spe.m.ls[j]);
      t := s.(ppe := Spinning(s.ppe.loaded + {j}, And(s.ppe.acc, s.spe.m.ls[j])));
      assert LoadStep(s, t, j);
      LoadStepInv(s, t, j);
    }
  }

  lemma NearerClearing(s: System) returns (t: System)
    requires Inv(s) && Stored(s.spe) && s.ppe.Clearing?
    ensures Step(s, t) && Inv(t) && Distance(t) < Distance(s)
  {
    if s.ppe.cleared == FOUR {
      t := s.(ppe := Finished);
      assert ReturnStep(s, t);
    } else {
      var zero: Word := 0;
      var j := Unfinished(s.ppe.cleared);
      t := System(s.spe.(m := s.spe.m.(ls := s.spe.m.ls[j := zero])), Clearing(s.ppe.cleared + {j}));
      assert ClearStep(s, t, j);
      ClearStepInv(s, t, j);
    }
  }

  /** As long as the two have not both finished some thread can make a step that brings the
      end nearer: from every reachable state the end can be reached, and none is stuck. */
  lemma Nearer(s: System) returns (t: System)
    requires Inv(s) && !Ended(s)
    ensures Step(s, t) && Inv(t) && Distance(t) < Distance(s)
  {
    if !Stored(s.spe) || s.ppe == Finished { t := NearerSpe(s); }
    else if s.ppe.Spinning? { t := NearerSpinning(s); }
    else { t := NearerClearing(s); }
  }

  ghost predicate IsRun(run: seq<System>) {
    run != [] && forall i {:trigger run[i]} :: 0 < i < |run| ==> Step(run[i - 1], run[i])
  }

  lemma {:induction false} CanFinish(s: System) returns (run: seq<System>)
    requires Inv(s)
    ensures IsRun(run) && run[0] == s && Ended(run[|run| - 1]) && Inv(run[|run| - 1])
    decreases Distance(s)
  {
    run := [s];
    if !Ended(s) {
      var t := Nearer(s);
      var rest := CanFinish(t);
      run := [s] + rest;
    }
  }

  lemma {:induction false} RunInv(run: seq<System>)
    requires IsRun(run) && Initial(run[0])
    ensures Inv(run[|run| - 1])
    decreases |run|
  {
    if |run| == 1 {
      InitialInv(run[0]);
    } else {
      var n := |run| - 1;
      var shorter := run[..n];
      forall i | 0 < i < n ensures Step(shorter[i - 1], shorter[i]) { assert Step(run[i - 1], run[i]); }
      RunInv(shorter);
      assert Step(run[n - 1], run[n]);
      StepInv(run[n - 1], run[n]);
    }
  }

  /** Every run, in any interleaving: the two threads keep their order, and from where it has
      got to it can still be brought to the end. */
  lemma EveryRun(run: seq<System>) returns (rest: seq<System>)
    requires IsRun(run) && Initial(run[0])
    ensures var s := run[|run| - 1];
            && (!s.ppe.Spinning? ==> Stored(s.spe))
            && (s.spe.run.Stopped? ==> s.spe.run == Stopped(0x1337) && Cleared(s.ppe, 0) && Proper(s.spe.m) && s.spe.m.ls[0] == 0)
            && (Ended(s) ==> forall j :: 0 <= j < 4 ==> s.spe.m.ls[j] == 0)
            && IsRun(rest) && rest[0] == s && Ended(rest[|rest| - 1])
  {
    var s := run[|run| - 1];
    RunInv(run);
    Ordered(s);
    rest := CanFinish(s);
  }

  // ---------- fair runs ----------

  /** A step of the host's thread. */
  ghost predicate HostStep(s: System, t: System) {
    DecideStep(s, t) || ReturnStep(s, t) || (exists j :: LoadStep(s, t, j)) || (exists j :: ClearStep(s, t, j))
  }

  /** The end waits for the SPE until it has stored its ones and again when the host's thread
      has finished, and for the host's thread in between. */
  ghost predicate SpeIsNext(s: System) {
    !Stored(s.spe) || s.ppe == Finished
  }

  /** A step of the SPE never leads away from the end, and leads nearer when it is waited for. */
  lemma SpeDistance(s: System, t: System)
    requires Inv(s) && SpeStep(s, t)
    ensures Inv(t) && Distance(t) <= Distance(s) && (SpeIsNext(s) ==> Distance(t) < Distance(s))
  {
    Fetched(s.spe.m);
    SpeStepInv(s, t);
    if s.ppe.Spinning? { SubsetSize(s.ppe.loaded); }
  }

  lemma LoadDistance(s: System, t: System, j: nat)
    requires Inv(s) && LoadStep(s, t, j)
    ensures Inv(t) && Distance(t) <= Distance(s) && (!SpeIsNext(s) ==> Distance(t) < Distance(s))
  {
    LoadStepInv(s, t, j);
    AndOnes(s.ppe.acc, s.spe.m.ls[j]);
    assert s.spe.m.ls[j] == if Stored(s.spe) then ONES else 0;
    SubsetSize(s.ppe.loaded);
    SubsetSize(t.ppe.loaded);
    assert |t.ppe.loaded| == |s.ppe.loaded| + 1;
  }

  lemma ClearDistance(s: System, t: System, j: nat)
    requires Inv(s) && ClearStep(s, t, j)
    ensures Inv(t) && Distance(t) <= Distance(s) && (!SpeIsNext(s) ==> Distance(t) < Distance(s))
  {
    ClearStepInv(s, t, j);
    SubsetSize(s.ppe.cleared);
    SubsetSize(t.ppe.cleared);
    assert |t.ppe.cleared| == |s.ppe.cleared| + 1;
  }

  /** So it is with a step of the host's thread. */
  lemma HostDistance(s: System, t: System)
    requires Inv(s) && HostStep(s, t)
    ensures Inv(t) && Distance(t) <= Distance(s) && (!SpeIsNext(s) ==> Distance(t) < Distance(s))
  {
    StepInv(s, t);
    if j :| LoadStep(s, t, j) {
      LoadDistance(s, t, j);
    } else if j :| ClearStep(s, t, j) {
      ClearDistance(s, t, j);
    }
  }

  /** The run goes on from place i, or has ended there and stays as it is. */
  ghost predicate Goes(run: nat -> System, i: nat) {
    Step(run(i), run(i + 1)) || (Ended(run(i)) && run(i + 1) == run(i))
  }

  ghost predicate IsEndless(run: nat -> System) {
    Initial(run(0)) && forall i: nat {:trigger Goes(run, i)} :: Goes(run, i)
  }

  ghost predicate SpeMoves(run: nat -> System, i: nat) {
    SpeStep(run(i), run(i + 1)) || run(i).spe.run.Stopped?
  }

  ghost predicate HostMoves(run: nat -> System, i: nat) {
    HostStep(run(i), run(i + 1)) || run(i).ppe == Finished
  }

  /** From place i on the SPE makes a step sooner or later. */
  ghost predicate SpeComes(run: nat -> System, i: nat) {
    exists j: nat :: j >= i && SpeMoves(run, j)
  }

  ghost predicate HostComes(run: nat -> System, i: nat) {
    exists j: nat :: j >= i && HostMoves(run, j)
  }

  /** Each thread makes a step again and again until it has finished. */
  ghost predicate Fair(run: nat -> System) {
    && (forall i: nat {:trigger SpeComes(run, i)} :: SpeComes(run, i))
    && (forall i: nat {:trigger HostComes(run, i)} :: HostComes(run, i))
  }

  lemma {:induction false} EndlessInv(run: nat -> System, i: nat)
    requires IsEndless(run)
    ensures Inv(run(i))
    decreases i
  {
    if i == 0 {
      InitialInv(run(0));
    } else {
      EndlessInv(run, i - 1);
      assert Goes(run, i - 1);
      var s, t := run(i - 1), run(i);
      if Step(s, t) { StepInv(s, t); }
    }
  }

  /** The thread that is waited for makes a step some time later. */
  lemma NextMoves(run: nat -> System, i: nat) returns (k: nat)
    requires IsEndless(run) && Fair(run) && !Ended(run(i))
    ensures Inv(run(i)) && Inv(run(k)) && Distance(run(k)) < Distance(run(i))
  {
    EndlessInv(run, i);
    if SpeIsNext(run(i)) {
      assert SpeComes(run, i);
      var j: nat :| j >= i && SpeMoves(run, j);
      k := SpeArrives(run, i, j);
    } else {
      assert HostComes(run, i);
      var j: nat :| j >= i && HostMoves(run, j);
      k := HostArrives(run, i, j);
    }
  }

  lemma {:induction false} SpeArrives(run: nat -> System, i: nat, j: nat) returns (k: nat)
    requires IsEndless(run) && !Ended(run(i)) && SpeIsNext(run(i)) && i <= j
    requires SpeMoves(run, j)
    ensures Inv(run(i)) && Inv(run(k)) && Distance(run(k)) < Distance(run(i))
    decreases j - i
  {
    EndlessInv(run, i);
    k := i + 1;
    var nearer := SpeTurn(run, i);
    if !nearer {
      k := SpeArrives(run, i + 1, j);
    }
  }

  /** While the SPE is waited for, a step of the host's thread changes nothing about that. */
  lemma SpeTurn(run: nat -> System, i: nat) returns (nearer: bool)
    requires Inv(run(i)) && Goes(run, i) && SpeIsNext(run(i)) && !Ended(run(i))
    ensures var s, t := run(i), run(i + 1);
            && Inv(t)
            && if nearer then Distance(t) < Distance(s)
               else !SpeMoves(run, i) && SpeIsNext(t) && !Ended(t) && Distance(t) <= Distance(s)
  {
    var s, t := run(i), run(i + 1);
    nearer := SpeStep(s, t);
    if nearer {
      SpeDistance(s, t);
    } else {
      HostDistance(s, t);
      Ordered(s);
    }
  }

  lemma {:induction false} HostArrives(run: nat -> System, i: nat, j: nat) returns (k: nat)
    requires IsEndless(run) && !SpeIsNext(run(i)) && i <= j
    requires HostMoves(run, j)
    ensures Inv(run(i)) && Inv(run(k)) && Distance(run(k)) < Distance(run(i))
    decreases j - i
  {
    EndlessInv(run, i);
    k := i + 1;
    var nearer := HostTurn(run, i);
    if !nearer {
      k := HostArrives(run, i + 1, j);
    }
  }

  /** While the host's thread is waited for, a step of the SPE changes nothing about that. */
  lemma HostTurn(run: nat -> System, i: nat) returns (nearer: bool)
    requires Inv(run(i)) && Goes(run, i) && !SpeIsNext(run(i))
    ensures var s, t := run(i), run(i + 1);
            && Inv(t)
            && if nearer then Distance(t) < Distance(s)
               else !HostMoves(run, i) && !SpeIsNext(t) && Distance(t) <= Distance(s)
  {
    var s, t := run(i), run(i + 1);
    nearer := HostStep(s, t);
    if nearer {
      HostDistance(s, t);
    } else {
      SpeDistance(s, t);
      SpeKeepsTurn(s, t);
    }
  }

  lemma SpeKeepsTurn(s: System, t: System)
    requires Inv(s) && SpeStep(s, t) && !SpeIsNext(s)
    ensures !SpeIsNext(t)
  {
    Fetched(s.spe.m);
  }

  /** Every fair run ends, however the steps of the two threads interleave. */
  lemma FairRunEnds(run: nat -> System) returns (k: nat)
    requires IsEndless(run) && Fair(run)
    ensures Ended(run(k)) && Proper(run(k).spe.m) && forall j :: 0 <= j < 4 ==> run(k).spe.m.ls[j] == 0
  {
    EndlessInv(run, 0);
    k := Arrives(run, 0);
    EndlessInv(run, k);
    Ordered(run(k));
  }

  lemma {:induction false} Arrives(run: nat -> System, i: nat) returns (k: nat)
    requires IsEndless(run) && Fair(run) && Inv(run(i))
    ensures Ended(run(k))
    decreases Distance(run(i))
  {
    k := i;
    if !Ended(run(i)) {
      var j := NextMoves(run, i);
      k := Arrives(run, j);
    }
  }
}
