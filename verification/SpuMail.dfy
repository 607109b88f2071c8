/** An SPE that reads messages from its inbound mailbox, as the programs of
    tests/09-mailbox and tests/20-scheduler do. */
module SpuMail {
  import opened Words
  import opened Spu

  /** SPU_RdInMbox. */
  const MBOX_CHANNEL: nat := 29
  /** The inbound mailbox holds four messages. */
  const MBOX_DEPTH: nat := 4

  datatype Run = Running | Stopped(code: nat)

  /** A thread in spu_run: the machine, whether it still runs, and, to speak about it, the
      messages it has read so far. */
  datatype Spe = Spe(m: Machine, run: Run, got: seq<Word>)

  /** What spu_run returns when the program has stopped: the stop code and the status bit. */
  function RunCode(code: nat): nat { code * 0x10000 + 2 }

  /** The SPE can execute its next instruction: it has not stopped, and it does not wait
      for a message. */
  predicate Ready(s: Spe, mbox: seq<Word>)
    requires Proper(s.m)
  {
    s.run == Running &&
    match Fetch(s.m)
    case Rdch(_, ch) => ch == MBOX_CHANNEL && mbox != []
    case Wrch(_, _) => false
    case Unknown => false
    case _ => true
  }

  /** One instruction. */
  ghost function Advance(s: Spe, mbox: seq<Word>): (r: (Spe, seq<Word>))
    requires Proper(s.m) && Ready(s, mbox)
    ensures Proper(r.0.m) && s.got + mbox == r.0.got + r.1
  {
    var i := Fetch(s.m);
    if i.Rdch? then
      assert [mbox[0]] + mbox[1..] == mbox;
      (Spe(Receive(s.m, i.rt, mbox[0]), Running, s.got + [mbox[0]]), mbox[1..])
    else if i.Stop? then (Spe(Next(s.m), Stopped(i.code), s.got), mbox)
    else (Spe(Execute(s.m), Running, s.got), mbox)
  }

  /** prog stands in the local store from the word at on. */
  ghost predicate Loaded(ls: seq<Word>, at: nat, prog: seq<Word>) {
    |ls| == LS_WORDS && at + |prog| <= LS_WORDS
        && forall j {:trigger prog[j]} :: 0 <= j < |prog| ==> ls[at + j] == prog[j]
  }

  /** A freshly created context into which prog has been written: everything else is zero. */
  function Boot(prog: seq<Word>, at: nat, entry: nat): (s: Spe)
    requires at + |prog| <= LS_WORDS && entry < LS_WORDS
    ensures Proper(s.m) && Loaded(s.m.ls, at, prog) && s.m.pc == entry && s.run == Running && s.got == []
    ensures forall i :: 0 <= i < 128 ==> s.m.regs[i] == Quad(0, 0, 0, 0)
    ensures forall j :: 0 <= j < |s.m.ls| && !(at <= j < at + |prog|) ==> s.m.ls[j] == 0
  {
    var zero: Word := 0;
    Spe(Machine(entry, seq(128, _ => Splat(zero)),
                seq(LS_WORDS, i requires 0 <= i < LS_WORDS => if at <= i < at + |prog| then prog[i - at] else zero)),
        Running, [])
  }

  // ---------- sums, for measures of progress ----------

  ghost function Sum(q: seq<nat>): nat {
    if q == [] then 0 else q[0] + Sum(q[1..])
  }

  lemma {:induction false} SumUpdate(q: seq<nat>, i: nat, v: nat)
    requires i < |q|
    ensures Sum(q[i := v]) + q[i] == Sum(q) + v
  {
    if i == 0 {
      assert q[0 := v][1..] == q[1..];
    } else {
      assert q[i := v][1..] == q[1..][i - 1 := v];
      SumUpdate(q[1..], i - 1, v);
    }
  }
}
