/** The program of benchmarks/04-gang-sched/01-dual-ring.c: SPEs that pass a counter around a
    ring, each writing with a DMA command into the signal register of the next. */
module SpuRing {
  import opened Words
  import opened Spu
  import opened SpuMail

  /** From address 0 on: the address to signal, the number of iterations, the buffer of the
      DMA command, and at address 0x30 the code. */
  function Program(): seq<Word> {
    [0x0000_0000, 0x0000_0000, 0x0000_0000, 0x0000_0000,
     0x0000_0000, 0x0000_0000, 0x0000_0000, 0x0000_0000,
     0x0000_0000, 0x0000_0000, 0x0000_0000, 0x0000_0000] + Code()
  }

  function Code(): seq<Word> {
    [0x3080_0001, 0x3fe1_0082, 0x3080_0203, 0x4080_1604, 0x4080_0005, 0x4080_0206, 0x4080_5007,
     0x4080_0088, 0x4080_0089, 0x4281_018b, 0x01a0_018a, 0x1c00_450a, 0xb142_850b, 0x2080_040a,
     0x21a0_0804, 0x21a0_0881, 0x21a0_0902, 0x21a0_0986, 0x21a0_0a05, 0x21a0_0a87,
     0x21a0_0b08, 0x21a0_0b89, 0x01a0_0c0c, 0x1cff_c183, 0x217f_f903, 0x0000_1337]
  }

  const ENTRY: nat := 12
  /** The word of the buffer from which the DMA command sends, and its address. */
  const SLOT: nat := 11
  const SLOT_ADDRESS: nat := 0x2c

  // The channels of signal notification 1 and of the memory flow controller.
  const RD_SIGNAL: nat := 3
  const MFC_LSA: nat := 16
  const MFC_EAH: nat := 17
  const MFC_EAL: nat := 18
  const MFC_SIZE: nat := 19
  const MFC_TAG: nat := 20
  const MFC_CMD: nat := 21
  const MFC_TAG_MASK: nat := 22
  const MFC_TAG_UPDATE: nat := 23
  const MFC_TAG_STATUS: nat := 24
  /** The command that sends a signal, and how many commands the queue can hold. */
  const SNDSIG: nat := 0xa0
  const QUEUE_DEPTH: nat := 16

  function Listing(n: nat): Instruction {
    if n < 10 then
      if n == 0 then Lqa(1, 0)
      else if n == 1 then Shlqbyi(2, 1, 4)
      else if n == 2 then Lqa(3, 4)
      else if n == 3 then Il(4, SLOT_ADDRESS)
      else if n == 4 then Il(5, 0)
      else if n == 5 then Il(6, 4)
      else if n == 6 then Il(7, SNDSIG)
      else if n == 7 then Il(8, 1)
      else if n == 8 then Il(9, 1)
      else Ila(11, 0x0001_0203)
    else if n < 20 then
      if n == 10 then Rdch(10, RD_SIGNAL)
      else if n == 11 then Ai(10, 10, 1)
      else if n == 12 then Shufb(10, 10, 10, 11)
      else if n == 13 then Stqa(10, 8)
      else if n == 14 then Wrch(MFC_LSA, 4)
      else if n == 15 then Wrch(MFC_EAH, 1)
      else if n == 16 then Wrch(MFC_EAL, 2)
      else if n == 17 then Wrch(MFC_SIZE, 6)
      else if n == 18 then Wrch(MFC_TAG, 5)
      else Wrch(MFC_CMD, 7)
    else if n == 20 then Wrch(MFC_TAG_MASK, 8)
    else if n == 21 then Wrch(MFC_TAG_UPDATE, 9)
    else if n == 22 then Rdch(12, MFC_TAG_STATUS)
    else if n == 23 then Ai(3, 3, -1)
    else if n == 24 then Brnz(3, -14)
    else Stop(0x1337)
  }

  lemma DecodedLoads(n: nat)
    requires n < 3
    ensures Decode(Code()[n]) == Listing(n)
  {
    if n == 0 { assert Decode(Code()[0]) == Listing(0); }
    else if n == 1 { assert Decode(Code()[1]) == Listing(1); }
    else { assert Decode(Code()[2]) == Listing(2); }
  }

  lemma DecodedSetup(n: nat)
    requires 3 <= n < 6
    ensures Decode(Code()[n]) == Listing(n)
  {
    if n == 3 { assert Decode(Code()[3]) == Listing(3); }
    else if n == 4 { assert Decode(Code()[4]) == Listing(4); }
    else { assert Decode(Code()[5]) == Listing(5); }
  }

  lemma DecodedMasks(n: nat)
    requires 6 <= n < 10
    ensures Decode(Code()[n]) == Listing(n)
  {
    if n == 6 { assert Decode(Code()[6]) == Listing(6); }
    else if n == 7 { assert Decode(Code()[7]) == Listing(7); }
    else if n == 8 { assert Decode(Code()[8]) == Listing(8); }
    else { assert Decode(Code()[9]) == Listing(9); }
  }

  lemma DecodedValue(n: nat)
    requires 10 <= n < 12
    ensures Decode(Code()[n]) == Listing(n)
  {
    if n == 10 { assert Decode(Code()[10]) == Listing(10); }
    else { assert Decode(Code()[11]) == Listing(11); }
  }

  lemma DecodedShuffle()
    ensures Decode(Code()[12]) == Listing(12)
  {
    assert Decode(0xb142_850b) == Shufb(10, 10, 10, 11);
  }

  lemma DecodedAddress(n: nat)
    requires 13 <= n < 16
    ensures Decode(Code()[n]) == Listing(n)
  {
    if n == 13 { assert Decode(Code()[13]) == Listing(13); }
    else if n == 14 { assert Decode(Code()[14]) == Listing(14); }
    else { assert Decode(Code()[15]) == Listing(15); }
  }

  lemma DecodedCommand(n: nat)
    requires 16 <= n < 20
    ensures Decode(Code()[n]) == Listing(n)
  {
    if n == 16 { assert Decode(Code()[16]) == Listing(16); }
    else if n == 17 { assert Decode(Code()[17]) == Listing(17); }
    else if n == 18 { assert Decode(Code()[18]) == Listing(18); }
    else { assert Decode(Code()[19]) == Listing(19); }
  }

  lemma DecodedStatus(n: nat)
    requires 20 <= n < 23
    ensures Decode(Code()[n]) == Listing(n)
  {
    if n == 20 { assert Decode(Code()[20]) == Listing(20); }
    else if n == 21 { assert Decode(Code()[21]) == Listing(21); }
    else { assert Decode(Code()[22]) == Listing(22); }
  }

  lemma DecodedEnd(n: nat)
    requires 23 <= n < 26
    ensures Decode(Code()[n]) == Listing(n)
  {
    if n == 23 { assert Decode(Code()[23]) == Listing(23); }
    else if n == 24 { assert Decode(Code()[24]) == Listing(24); }
    else { assert Decode(Code()[25]) == Listing(25); }
  }

  /** The words of the program are the instructions of the listing. */
  lemma Decoded(n: nat)
    requires n < 26
    ensures Decode(Code()[n]) == Listing(n)
  {
    if n < 3 { DecodedLoads(n); } else if n < 6 { DecodedSetup(n); } else if n < 10 { DecodedMasks(n); }
    else if n < 12 { DecodedValue(n); } else if n == 12 { DecodedShuffle(); } else if n < 16 { DecodedAddress(n); } else if n < 20 { DecodedCommand(n); }
    else if n < 23 { DecodedStatus(n); } else { DecodedEnd(n); }
  }

  lemma Fetched(m: Machine)
    requires Proper(m) && Loaded(m.ls, ENTRY, Code()) && ENTRY <= m.pc < ENTRY + 26
    ensures Fetch(m) == Listing(m.pc - ENTRY)
  {
    var n := m.pc - ENTRY;
    Decoded(n);
    assert Code()[n] == m.ls[ENTRY + n];
  }

  // ---------- one SPE and its memory flow controller ----------

  datatype Command = Command(lsa: Word, eah: Word, eal: Word, size: Word, tag: Word, cmd: Word)

  /** The parameter registers, the tag mask, whether a tag status update has been asked for
      and not yet been read, and the commands in the queue. */
  datatype Mfc = Mfc(lsa: Word, eah: Word, eal: Word, size: Word, tag: Word, mask: Word, asked: bool, queue: seq<Command>)

  /** A signal notification register. */
  datatype Signal = Empty | Full(word: Word)

  /** An SPE with, to speak about them, the signals it has read so far. */
  datatype Node = Node(m: Machine, run: Run, mfc: Mfc, seen: seq<Word>)

  /** Bit t of a word, counted from the lowest. */
  predicate Bit(w: nat, t: nat) {
    if t == 0 then w % 2 == 1 else Bit(w / 2, t - 1)
  }

  /** Some tag of the mask has no command outstanding: the answer to "any". */
  ghost predicate AnyDone(f: Mfc) {
    exists t: nat {:trigger Bit(f.mask, t)} :: t < 32 && Bit(f.mask, t) && forall c {:trigger c in f.queue} :: c in f.queue ==> c.tag != t
  }

  /** The SPE can execute its next instruction. */
  ghost predicate NodeReady(d: Node, signal: Signal)
    requires Proper(d.m)
  {
    d.run == Running &&
    match Fetch(d.m)
    case Rdch(_, ch) => (ch == RD_SIGNAL && signal.Full?) || (ch == MFC_TAG_STATUS && d.mfc.asked && AnyDone(d.mfc))
    case Wrch(ch, rt) =>
      || MFC_LSA <= ch <= MFC_TAG || ch == MFC_TAG_MASK
      || (ch == MFC_CMD && |d.mfc.queue| < QUEUE_DEPTH)
      || (ch == MFC_TAG_UPDATE && d.m.regs[rt].w0 == 1)
    case Unknown => false
    case _ => true
  }

  function MfcWrite(f: Mfc, ch: nat, w: Word): Mfc {
    if ch == MFC_LSA then f.(lsa := w)
    else if ch == MFC_EAH then f.(eah := w)
    else if ch == MFC_EAL then f.(eal := w)
    else if ch == MFC_SIZE then f.(size := w)
    else if ch == MFC_TAG then f.(tag := w)
    else if ch == MFC_CMD then f.(queue := f.queue + [Command(f.lsa, f.eah, f.eal, f.size, f.tag, w)])
    else if ch == MFC_TAG_MASK then f.(mask := w)
    else f.(asked := true)
  }

  /** One instruction; status is what the tag status channel would deliver. */
  ghost function NodeNext(d: Node, signal: Signal, status: Word): (r: (Node, Signal))
    requires Proper(d.m) && NodeReady(d, signal)
    ensures Proper(r.0.m)
  {
    var i := Fetch(d.m);
    if i.Rdch? then
      if i.ch == RD_SIGNAL then
        (d.(m := Receive(d.m, i.rt, signal.word), seen := d.seen + [signal.word]), Empty)
      else
        (d.(m := Receive(d.m, i.rt, status), mfc := d.mfc.(asked := false)), signal)
    else if i.Wrch? then (d.(m := Next(d.m), mfc := MfcWrite(d.mfc, i.ch, d.m.regs[i.rt].w0)), signal)
    else if i.Stop? then (d.(m := Next(d.m), run := Stopped(i.code)), signal)
    else (d.(m := Execute(d.m)), signal)
  }

  // ---------- where the program is ----------

  /** What an SPE is started with: the two halves of the address to signal, and the number of
      iterations. */
  datatype Params = Params(hi: Word, lo: Word, iters: Word)

  ghost predicate Store(ls: seq<Word>, a: Params) {
    Loaded(ls, ENTRY, Code()) && ls[0] == a.hi && ls[1] == a.lo && ls[4] == a.iters
  }

  /** The registers that stay as they are once they have been set. */
  ghost predicate Constants(r: seq<Quad>, p: int, a: Params)
    requires |r| == 128
  {
    && (p >= 1 ==> r[1].w0 == a.hi && r[1].w1 == a.lo)
    && (p >= 2 ==> r[2].w0 == a.lo)
    && (p >= 4 ==> r[4].w0 == SLOT_ADDRESS)
    && (p >= 5 ==> r[5].w0 == 0)
    && (p >= 6 ==> r[6].w0 == 4)
    && (p >= 7 ==> r[7].w0 == SNDSIG)
    && (p >= 8 ==> r[8].w0 == 1)
    && (p >= 9 ==> r[9].w0 == 1)
    && (p >= 10 ==> r[11] == Splat(0x0001_0203))
  }

  /** The loop counter and the number c of signals read. */
  ghost predicate Counting(r: seq<Quad>, p: int, c: nat, a: Params)
    requires |r| == 128
  {
    && (p < 10 ==> c == 0)
    && (p == 10 ==> c < a.iters)
    && (p >= 11 ==> 0 < c <= a.iters)
    && (p == 25 ==> c == a.iters)
    && (p >= 3 ==> r[3].w0 == if 11 <= p <= 23 then a.iters - c + 1 else a.iters - c)
  }

  /** The value that is passed on, one more than the last one read. */
  ghost predicate Passing(r: seq<Quad>, ls: seq<Word>, p: int, seen: seq<Word>)
    requires |r| == 128 && |ls| == LS_WORDS
  {
    p >= 11 && seen != [] ==>
      var v: int := seen[|seen| - 1];
      && (p == 11 ==> r[10].w0 == v)
      && (p == 12 ==> r[10].w0 == Wrap(v + 1))
      && (p == 13 ==> r[10] == Splat(Wrap(v + 1)))
      && (14 <= p <= 22 ==> ls[SLOT] == Wrap(v + 1))
  }

  /** The command that is being put together, and the one that may be in the queue. */
  ghost predicate Commanding(f: Mfc, p: int, a: Params) {
    && (15 <= p <= 19 ==> f.lsa == SLOT_ADDRESS)
    && (16 <= p <= 19 ==> f.eah == a.hi)
    && (17 <= p <= 19 ==> f.eal == a.lo)
    && (18 <= p <= 19 ==> f.size == 4)
    && (p == 19 ==> f.tag == 0)
    && (f.queue == [] || (20 <= p <= 22 && f.queue == [Command(SLOT_ADDRESS, a.hi, a.lo, 4, 0, SNDSIG)]))
    && (21 <= p <= 22 ==> f.mask == 1)
    && (p == 22 ==> f.asked)
  }

  ghost predicate Position(d: Node, a: Params) {
    && Proper(d.m) && Store(d.m.ls, a)
    && match d.run
       case Stopped(code) => code == 0x1337 && |d.seen| == a.iters && d.mfc.queue == []
       case Running =>
         && ENTRY <= d.m.pc < ENTRY + 26
         && var p := d.m.pc - ENTRY;
            && Constants(d.m.regs, p, a)
            && Counting(d.m.regs, p, |d.seen|, a)
            && Passing(d.m.regs, d.m.ls, p, d.seen)
            && Commanding(d.mfc, p, a)
  }

  /** The SPE has read a signal and not yet passed it on. */
  ghost predicate Owes(d: Node) {
    d.run == Running && (ENTRY + 11 <= d.m.pc <= ENTRY + 19 || d.mfc.queue != [])
  }

  // Every instruction keeps the program where Position says.

  lemma NextLoads(d: Node, signal: Signal, v: Word, a: Params)
    requires Position(d, a) && NodeReady(d, signal) && d.m.pc < ENTRY + 3 && d.m.pc != ENTRY + 1
    ensures Position(NodeNext(d, signal, v).0, a)
  {
    Fetched(d.m);
  }

  lemma NextShift(d: Node, signal: Signal, v: Word, a: Params)
    requires Position(d, a) && NodeReady(d, signal) && d.m.pc == ENTRY + 1
    ensures Position(NodeNext(d, signal, v).0, a)
  {
    Fetched(d.m);
    ShiftWord(d.m.regs[1]);
  }

  lemma NextInit(d: Node, signal: Signal, v: Word, a: Params)
    requires Position(d, a) && NodeReady(d, signal) && ENTRY + 3 <= d.m.pc < ENTRY + 7
    ensures Position(NodeNext(d, signal, v).0, a)
  {
    Fetched(d.m);
  }

  lemma NextMasks(d: Node, signal: Signal, v: Word, a: Params)
    requires Position(d, a) && NodeReady(d, signal) && ENTRY + 7 <= d.m.pc < ENTRY + 10 && a.iters > 0
    ensures Position(NodeNext(d, signal, v).0, a)
  {
    Fetched(d.m);
  }

  lemma NextRead(d: Node, signal: Signal, v: Word, a: Params)
    requires Position(d, a) && NodeReady(d, signal) && d.m.pc == ENTRY + 10
    ensures Position(NodeNext(d, signal, v).0, a)
  {
    Fetched(d.m);
  }

  lemma NextValue(d: Node, signal: Signal, v: Word, a: Params)
    requires Position(d, a) && NodeReady(d, signal) && d.m.pc == ENTRY + 11
    ensures Position(NodeNext(d, signal, v).0, a)
  {
    Fetched(d.m);
  }

  lemma NextShuffle(d: Node, signal: Signal, v: Word, a: Params)
    requires Position(d, a) && NodeReady(d, signal) && d.m.pc == ENTRY + 12
    ensures Position(NodeNext(d, signal, v).0, a)
  {
    Fetched(d.m);
    SplatBytes(d.m.regs[10], d.m.regs[11]);
  }

  lemma NextStore(d: Node, signal: Signal, v: Word, a: Params)
    requires Position(d, a) && NodeReady(d, signal) && d.m.pc == ENTRY + 13
    ensures Position(NodeNext(d, signal, v).0, a)
  {
    Fetched(d.m);
    var t := NodeNext(d, signal, v).0;
    forall j | 0 <= j < |Code()| ensures t.m.ls[ENTRY + j] == Code()[j] {
      assert d.m.ls[ENTRY + j] == Code()[j];
    }
  }

  lemma NextSend(d: Node, signal: Signal, v: Word, a: Params)
    requires Position(d, a) && NodeReady(d, signal) && ENTRY + 14 <= d.m.pc <= ENTRY + 16
    ensures Position(NodeNext(d, signal, v).0, a)
  {
    Fetched(d.m);
  }

  lemma NextCommand(d: Node, signal: Signal, v: Word, a: Params)
    requires Position(d, a) && NodeReady(d, signal) && ENTRY + 17 <= d.m.pc <= ENTRY + 19
    ensures Position(NodeNext(d, signal, v).0, a)
  {
    Fetched(d.m);
  }

  lemma {:induction false} NoBits(t: nat)
    ensures !Bit(0, t)
  {
    if t > 0 { NoBits(t - 1); }
  }

  /** While tag 0 is the only one in the mask, the tag status comes when the queue is empty. */
  lemma OnlyTag(f: Mfc, a: Params)
    requires Commanding(f, 22, a)
    ensures AnyDone(f) <==> f.queue == []
  {
    assert Bit(f.mask, 0);
    forall t: nat | 0 < t < 32 ensures !Bit(f.mask, t) {
      NoBits(t - 1);
    }
    if f.queue != [] { assert f.queue[0] in f.queue; }
  }

  lemma NextWait(d: Node, signal: Signal, v: Word, a: Params)
    requires Position(d, a) && NodeReady(d, signal) && ENTRY + 20 <= d.m.pc <= ENTRY + 21
    ensures Position(NodeNext(d, signal, v).0, a)
  {
    Fetched(d.m);
  }

  lemma NextStatus(d: Node, signal: Signal, v: Word, a: Params)
    requires Position(d, a) && NodeReady(d, signal) && d.m.pc == ENTRY + 22
    ensures Position(NodeNext(d, signal, v).0, a)
  {
    Fetched(d.m);
    OnlyTag(d.mfc, a);
  }

  lemma NextCount(d: Node, signal: Signal, v: Word, a: Params)
    requires Position(d, a) && NodeReady(d, signal) && d.m.pc == ENTRY + 23
    ensures Position(NodeNext(d, signal, v).0, a)
  {
    Fetched(d.m);
  }

  lemma NextLoop(d: Node, signal: Signal, v: Word, a: Params)
    requires Position(d, a) && NodeReady(d, signal) && ENTRY + 24 <= d.m.pc
    ensures Position(NodeNext(d, signal, v).0, a)
  {
    Fetched(d.m);
  }

  lemma NextPosition(d: Node, signal: Signal, v: Word, a: Params)
    requires Position(d, a) && NodeReady(d, signal) && a.iters > 0
    ensures Position(NodeNext(d, signal, v).0, a)
  {
    if d.m.pc == ENTRY + 1 { NextShift(d, signal, v, a); }
    else if d.m.pc < ENTRY + 3 { NextLoads(d, signal, v, a); }
    else if d.m.pc < ENTRY + 7 { NextInit(d, signal, v, a); }
    else if d.m.pc < ENTRY + 10 { NextMasks(d, signal, v, a); }
    else if d.m.pc == ENTRY + 10 { NextRead(d, signal, v, a); }
    else if d.m.pc == ENTRY + 11 { NextValue(d, signal, v, a); }
    else if d.m.pc == ENTRY + 12 { NextShuffle(d, signal, v, a); }
    else if d.m.pc == ENTRY + 13 { NextStore(d, signal, v, a); }
    else if d.m.pc <= ENTRY + 16 { NextSend(d, signal, v, a); }
    else if d.m.pc <= ENTRY + 19 { NextCommand(d, signal, v, a); }
    else if d.m.pc <= ENTRY + 21 { NextWait(d, signal, v, a); }
    else if d.m.pc == ENTRY + 22 { NextStatus(d, signal, v, a); }
    else if d.m.pc == ENTRY + 23 { NextCount(d, signal, v, a); }
    else { NextLoop(d, signal, v, a); }
  }

  /** Where the program goes from here, and what becomes of the signal and of the queue. */
  ghost predicate Moves(d: Node, signal: Signal, r: (Node, Signal), iters: nat) {
    var p, e := d.m.pc - ENTRY, r.0;
    && (if p == 25 then e.run == Stopped(0x1337)
        else e.run == Running && e.m.pc == if p == 24 && |d.seen| < iters then ENTRY + 10 else d.m.pc + 1)
    && (if p == 10 then signal.Full? && r.1 == Empty && e.seen == d.seen + [signal.word] else r.1 == signal && e.seen == d.seen)
    && (if p == 19 then |e.mfc.queue| == 1 && d.mfc.queue == [] else e.mfc.queue == d.mfc.queue)
  }

  lemma MovesInit(d: Node, signal: Signal, v: Word, a: Params)
    requires Position(d, a) && NodeReady(d, signal) && d.m.pc < ENTRY + 5
    ensures Moves(d, signal, NodeNext(d, signal, v), a.iters)
  {
    Fetched(d.m);
  }

  lemma MovesMasks(d: Node, signal: Signal, v: Word, a: Params)
    requires Position(d, a) && NodeReady(d, signal) && ENTRY + 5 <= d.m.pc < ENTRY + 10
    ensures Moves(d, signal, NodeNext(d, signal, v), a.iters)
  {
    Fetched(d.m);
  }

  lemma MovesRead(d: Node, signal: Signal, v: Word, a: Params)
    requires Position(d, a) && NodeReady(d, signal) && d.m.pc == ENTRY + 10
    ensures Moves(d, signal, NodeNext(d, signal, v), a.iters)
  {
    Fetched(d.m);
  }

  lemma MovesValue(d: Node, signal: Signal, v: Word, a: Params)
    requires Position(d, a) && NodeReady(d, signal) && ENTRY + 11 <= d.m.pc < ENTRY + 14
    ensures Moves(d, signal, NodeNext(d, signal, v), a.iters)
  {
    Fetched(d.m);
  }

  lemma MovesSend(d: Node, signal: Signal, v: Word, a: Params)
    requires Position(d, a) && NodeReady(d, signal) && ENTRY + 14 <= d.m.pc < ENTRY + 20
    ensures Moves(d, signal, NodeNext(d, signal, v), a.iters)
  {
    Fetched(d.m);
  }

  lemma MovesWait(d: Node, signal: Signal, v: Word, a: Params)
    requires Position(d, a) && NodeReady(d, signal) && ENTRY + 20 <= d.m.pc < ENTRY + 23
    ensures Moves(d, signal, NodeNext(d, signal, v), a.iters)
  {
    Fetched(d.m);
  }

  lemma MovesLoop(d: Node, signal: Signal, v: Word, a: Params)
    requires Position(d, a) && NodeReady(d, signal) && ENTRY + 23 <= d.m.pc
    ensures Moves(d, signal, NodeNext(d, signal, v), a.iters)
  {
    Fetched(d.m);
  }

  lemma NextMoves(d: Node, signal: Signal, v: Word, a: Params)
    requires Position(d, a) && NodeReady(d, signal)
    ensures Moves(d, signal, NodeNext(d, signal, v), a.iters)
  {
    if d.m.pc < ENTRY + 5 { MovesInit(d, signal, v, a); }
    else if d.m.pc < ENTRY + 10 { MovesMasks(d, signal, v, a); }
    else if d.m.pc == ENTRY + 10 { MovesRead(d, signal, v, a); }
    else if d.m.pc < ENTRY + 14 { MovesValue(d, signal, v, a); }
    else if d.m.pc < ENTRY + 20 { MovesSend(d, signal, v, a); }
    else if d.m.pc < ENTRY + 23 { MovesWait(d, signal, v, a); }
    else { MovesLoop(d, signal, v, a); }
  }

  // ---------- the ring ----------

  /** The mapped problem state of an SPE, and where in it the first signal register is. */
  const PSMAP_SIZE: nat := 0x20000
  const PSMAP_SIGNAL1_OFFSET: nat := 0x1400c
  const ADDRESSES: nat := 0x1_0000_0000_0000_0000

  /** All SPEs of a gang, their signal registers, whether the host has started the ring, and
      whether a register has ever been written while it was full. */
  datatype Ring = Ring(nodes: seq<Node>, signals: seq<Signal>, started: bool, overrun: bool)

  /** Where the problem states of the SPEs are mapped: in pages of their own. */
  ghost predicate Mapped(base: seq<nat>) {
    && |base| > 0
    && (forall i {:trigger base[i]} :: 0 <= i < |base| ==> base[i] % 0x1000 == 0 && base[i] + PSMAP_SIZE <= ADDRESSES)
    && (forall i, j {:trigger base[i], base[j]} :: 0 <= i < |base| && 0 <= j < |base| && i != j ==>
          base[i] + PSMAP_SIZE <= base[j] || base[j] + PSMAP_SIZE <= base[i])
  }

  function SignalAddress(base: nat): nat { base + PSMAP_SIGNAL1_OFFSET }

  /** The SPE to which i sends. */
  function After(i: nat, n: nat): nat { if i + 1 == n then 0 else i + 1 }

  function Before(i: nat, n: nat): nat
    requires n > 0
  {
    if i == 0 then n - 1 else i - 1
  }

  function ParamsOf(base: seq<nat>, iters: Word, i: nat): Params
    requires i < |base| && (forall j :: 0 <= j < |base| ==> base[j] + PSMAP_SIZE <= ADDRESSES)
  {
    var j := After(i, |base|);
    Params(SignalAddress(base[j]) / WORD, SignalAddress(base[j]) % WORD, iters)
  }

  ghost predicate Shape(s: Ring, n: nat) {
    |s.nodes| == n && |s.signals| == n && forall i {:trigger s.nodes[i]} :: 0 <= i < n ==> Proper(s.nodes[i].m)
  }

  /** SPE i executes an instruction. */
  ghost predicate NodeStep(s: Ring, t: Ring, n: nat, i: nat) {
    && Shape(s, n) && i < n && NodeReady(s.nodes[i], s.signals[i])
    && exists v: Word :: var r := NodeNext(s.nodes[i], s.signals[i], v); t == s.(nodes := s.nodes[i := r.0], signals := s.signals[i := r.1])
  }

  /** The memory flow controller of SPE i executes the command at place q of its queue, which
      sends a word of the local store to the signal register of SPE j. */
  ghost predicate DmaStep(s: Ring, t: Ring, base: seq<nat>, i: nat, q: nat, j: nat) {
    && Shape(s, |base|) && i < |base| && j < |base| && q < |s.nodes[i].mfc.queue|
    && var d, c := s.nodes[i], s.nodes[i].mfc.queue[q];
       && c.cmd == SNDSIG && c.size == 4 && c.lsa / 4 < LS_WORDS
       && c.eah * WORD + c.eal == SignalAddress(base[j])
       && c.lsa % 16 == SignalAddress(base[j]) % 16
       && t == s.(nodes := s.nodes[i := d.(mfc := d.mfc.(queue := d.mfc.queue[..q] + d.mfc.queue[q + 1..]))],
                  signals := s.signals[j := Full(d.m.ls[c.lsa / 4])],
                  overrun := s.overrun || s.signals[j].Full?)
  }

  /** The two halves of an address are in the registers of channels 17 and 18; the word that
      is sent is the one at the local address; it goes to the first signal register. */
  lemma DmaMeans(s: Ring, t: Ring, base: seq<nat>, i: nat, q: nat, j: nat)
    requires DmaStep(s, t, base, i, q, j)
    ensures var c := s.nodes[i].mfc.queue[q];
            && c.eah * 0x1_0000_0000 + c.eal == base[j] + 0x1400c
            && c.lsa / 4 < 0x1_0000 && t.signals[j] == Full(s.nodes[i].m.ls[c.lsa / 4])
            && |t.nodes[i].mfc.queue| == |s.nodes[i].mfc.queue| - 1
            && (forall k :: 0 <= k < |base| && k != j ==> t.signals[k] == s.signals[k])
            && (forall k :: 0 <= k < |base| && k != i ==> t.nodes[k] == s.nodes[k])
  {
  }

  /** Which channel sets which parameter of a command. */
  lemma ChannelsMean(f: Mfc, w: Word)
    ensures MfcWrite(f, 16, w).lsa == w && MfcWrite(f, 17, w).eah == w && MfcWrite(f, 18, w).eal == w
    ensures MfcWrite(f, 19, w).size == w && MfcWrite(f, 20, w).tag == w && MfcWrite(f, 22, w).mask == w
    ensures MfcWrite(f, 21, w).queue == f.queue + [Command(f.lsa, f.eah, f.eal, f.size, f.tag, w)]
  {
  }

  /** run_gang: the host writes 0 to the signal register of the first SPE. */
  ghost predicate StartStep(s: Ring, t: Ring, n: nat) {
    && Shape(s, n) && n > 0 && !s.started
    && t == s.(signals := s.signals[0 := Full(0)], started := true, overrun := s.overrun || s.signals[0].Full?)
  }

  ghost predicate Step(s: Ring, t: Ring, base: seq<nat>) {
    || (exists i: nat :: NodeStep(s, t, |base|, i))
    || (exists i: nat, q: nat, j: nat :: DmaStep(s, t, base, i, q, j))
    || StartStep(s, t, |base|)
  }

  ghost predicate Idle(f: Mfc) { f.queue == [] && !f.asked }

  ghost predicate Initial(s: Ring, base: seq<nat>, iters: Word) {
    && Mapped(base) && Shape(s, |base|) && !s.started && !s.overrun
    && forall i {:trigger s.nodes[i]} {:trigger s.signals[i]} :: 0 <= i < |base| ==>
         var d := s.nodes[i];
         && d.m.pc == ENTRY && d.run == Running && d.seen == [] && Idle(d.mfc)
         && Store(d.m.ls, ParamsOf(base, iters, i)) && s.signals[i] == Empty
  }

  // ---------- the token ----------

  /** What SPE j has read when the next read is that of SPE i in round k: in each round m up
      to then the number m * n + j, as far as a word can hold it. */
  ghost predicate Reads(seen: seq<Word>, n: nat, j: nat, k: nat, i: nat) {
    && |seen| == (if j < i then k + 1 else k)
    && forall m {:trigger seen[m]} :: 0 <= m < |seen| ==> seen[m] == Wrap(m * n + j)
  }

  /** The next read is that of SPE i in round k.  The ring has not been started, or the token
      is in the register of SPE i, or SPE i - 1 has it and is going to send it. */
  ghost predicate At(s: Ring, base: seq<nat>, iters: Word, k: nat, i: nat) {
    var n := |base|;
    && Mapped(base) && Shape(s, n) && !s.overrun && i < n
    && (k < iters || (k == iters && i == 0))
    && (forall j {:trigger s.nodes[j]} :: 0 <= j < n ==>
          Position(s.nodes[j], ParamsOf(base, iters, j)) && Reads(s.nodes[j].seen, n, j, k, i))
    && (forall j {:trigger s.signals[j]} :: 0 <= j < n && j != i ==> s.signals[j] == Empty)
    && (if !s.started then k == 0 && i == 0 && s.signals[i] == Empty && NobodyOwes(s, n)
        else if s.signals[i].Full? then s.signals[i] == Full(Wrap(k * n + i)) && NobodyOwes(s, n)
        else (k > 0 || i > 0) && Owes(s.nodes[Before(i, n)])
             && forall j {:trigger s.nodes[j]} :: 0 <= j < n && j != Before(i, n) ==> !Owes(s.nodes[j]))
  }

  ghost predicate NobodyOwes(s: Ring, n: nat)
    requires Shape(s, n)
  {
    forall j {:trigger s.nodes[j]} :: 0 <= j < n ==> !Owes(s.nodes[j])
  }

  ghost predicate Inv(s: Ring, base: seq<nat>, iters: Word) {
    exists k: nat, i: nat :: At(s, base, iters, k, i)
  }

  lemma InitialInv(s: Ring, base: seq<nat>, iters: Word)
    requires Initial(s, base, iters) && iters > 0
    ensures Inv(s, base, iters)
  {
    forall j | 0 <= j < |base| ensures Position(s.nodes[j], ParamsOf(base, iters, j))
        && Reads(s.nodes[j].seen, |base|, j, 0, 0) && s.signals[j] == Empty {
      assert s.nodes[j].seen == [];
    }
    assert At(s, base, iters, 0, 0);
  }

  // ---------- every step keeps the token ----------

  /** An instruction that reads no signal changes neither the signals nor who owes. */
  lemma SilentNext(d: Node, signal: Signal, r: (Node, Signal), a: Params)
    requires Position(d, a) && d.run == Running && Moves(d, signal, r, a.iters) && d.m.pc != ENTRY + 10
    ensures r.1 == signal && r.0.seen == d.seen && Owes(r.0) == Owes(d)
  {
  }

  lemma SilentStep(s: Ring, t: Ring, base: seq<nat>, iters: Word, k: nat, i: nat, x: nat, v: Word)
    requires At(s, base, iters, k, i) && iters > 0 && x < |base| && NodeReady(s.nodes[x], s.signals[x])
    requires var r := NodeNext(s.nodes[x], s.signals[x], v); t == s.(nodes := s.nodes[x := r.0], signals := s.signals[x := r.1])
    requires s.nodes[x].m.pc != ENTRY + 10
    ensures At(t, base, iters, k, i)
  {
    var a := ParamsOf(base, iters, x);
    assert Position(s.nodes[x], a);
    NextPosition(s.nodes[x], s.signals[x], v, a);
    NextMoves(s.nodes[x], s.signals[x], v, a);
    SilentNext(s.nodes[x], s.signals[x], NodeNext(s.nodes[x], s.signals[x], v), a);
    TokenKept(s, t, base, iters, k, i, x);
  }

  lemma TokenKept(s: Ring, t: Ring, base: seq<nat>, iters: Word, k: nat, i: nat, x: nat)
    requires At(s, base, iters, k, i) && x < |base|
    requires |t.nodes| == |base| && t == s.(nodes := s.nodes[x := t.nodes[x]], signals := s.signals[x := s.signals[x]])
    requires Position(t.nodes[x], ParamsOf(base, iters, x))
    requires t.nodes[x].seen == s.nodes[x].seen && Owes(t.nodes[x]) == Owes(s.nodes[x])
    ensures At(t, base, iters, k, i)
  {
    assert t.signals == s.signals;
  }

  /** The read of SPE i makes the next one that of the SPE after it. */
  lemma ReadsOn(seen: seq<Word>, n: nat, j: nat, k: nat, i: nat)
    requires i < n && j < n && Reads(seen, n, j, k, i)
    ensures Reads(if j == i then seen + [Wrap(k * n + i)] else seen, n, j, if i + 1 == n then k + 1 else k, After(i, n))
  {
  }

  lemma ReadStep(s: Ring, t: Ring, base: seq<nat>, iters: Word, k: nat, i: nat, x: nat, v: Word)
    requires At(s, base, iters, k, i) && iters > 0 && x < |base| && NodeReady(s.nodes[x], s.signals[x])
    requires var r := NodeNext(s.nodes[x], s.signals[x], v); t == s.(nodes := s.nodes[x := r.0], signals := s.signals[x := r.1])
    requires s.nodes[x].m.pc == ENTRY + 10
    ensures At(t, base, iters, if i + 1 == |base| then k + 1 else k, After(i, |base|))
  {
    var n, a := |base|, ParamsOf(base, iters, x);
    assert Position(s.nodes[x], a);
    NextPosition(s.nodes[x], s.signals[x], v, a);
    NextMoves(s.nodes[x], s.signals[x], v, a);
    TokenRead(s, t, base, iters, k, i, x);
  }

  /** The token is read by the SPE whose turn it is, which then owes it to the next. */
  lemma TokenRead(s: Ring, t: Ring, base: seq<nat>, iters: Word, k: nat, i: nat, x: nat)
    requires At(s, base, iters, k, i) && iters > 0 && x < |base|
    requires |t.nodes| == |t.signals| == |base|
             && t == s.(nodes := s.nodes[x := t.nodes[x]], signals := s.signals[x := t.signals[x]])
    requires Position(t.nodes[x], ParamsOf(base, iters, x))
    requires s.nodes[x].m.pc == ENTRY + 10 && Moves(s.nodes[x], s.signals[x], (t.nodes[x], t.signals[x]), iters)
    ensures At(t, base, iters, if i + 1 == |base| then k + 1 else k, After(i, |base|))
  {
    var n := |base|;
    assert s.signals[x].Full?;
    assert x == i && s.started && s.signals[i] == Full(Wrap(k * n + i));
    assert Before(After(i, n), n) == i;
    forall j | 0 <= j < n ensures Reads(t.nodes[j].seen, n, j, if i + 1 == n then k + 1 else k, After(i, n)) {
      assert Reads(s.nodes[j].seen, n, j, k, i);
      ReadsOn(s.nodes[j].seen, n, j, k, i);
    }
  }

  /** What the SPE before i has read last is one less than the number of the next read. */
  lemma SentNumber(n: nat, k: nat, i: nat, x: nat, m: int)
    requires i < n && x == Before(i, n) && m == (if x < i then k else k - 1) && m >= 0
    ensures Wrap(Wrap(m * n + x) + 1) == Wrap(k * n + i)
  {
    WrapPlus(m * n + x);
    if i == 0 { assert m * n + n == k * n; }
  }

  /** A command in the queue is the one that sends the next number to the next SPE. */
  lemma CommandIs(s: Ring, base: seq<nat>, iters: Word, k: nat, i: nat, x: nat)
    requires At(s, base, iters, k, i) && x < |base| && s.nodes[x].mfc.queue != []
    ensures var n, d, j := |base|, s.nodes[x], After(x, |base|);
            && x == Before(i, n) && j == i && s.started && s.signals[i] == Empty
            && d.mfc.queue == [Command(SLOT_ADDRESS, SignalAddress(base[j]) / WORD, SignalAddress(base[j]) % WORD, 4, 0, SNDSIG)]
            && d.m.ls[SLOT] == Wrap(k * n + i)
            && ENTRY + 20 <= d.m.pc <= ENTRY + 22 && d.run == Running
  {
    var n, d := |base|, s.nodes[x];
    assert Position(d, ParamsOf(base, iters, x)) && Reads(d.seen, n, x, k, i);
    assert Owes(d);
    var m := |d.seen| - 1;
    assert d.seen[m] == Wrap(m * n + x);
    SentNumber(n, k, i, x, m);
  }

  /** Different SPEs have different signal registers. */
  lemma AddressesApart(base: seq<nat>, i: nat, j: nat)
    requires Mapped(base) && i < |base| && j < |base| && SignalAddress(base[i]) == SignalAddress(base[j])
    ensures i == j
  {
  }

  lemma DmaStepAt(s: Ring, t: Ring, base: seq<nat>, iters: Word, k: nat, i: nat, x: nat, q: nat, j: nat)
    requires At(s, base, iters, k, i) && DmaStep(s, t, base, x, q, j)
    ensures At(t, base, iters, k, i)
  {
    var n := |base|;
    CommandIs(s, base, iters, k, i, x);
    AddressesApart(base, j, i);
    var d := t.nodes[x];
    assert d.mfc.queue == [];
    assert Position(d, ParamsOf(base, iters, x)) && !Owes(d);
  }

  lemma StartStepAt(s: Ring, t: Ring, base: seq<nat>, iters: Word, k: nat, i: nat)
    requires At(s, base, iters, k, i) && StartStep(s, t, |base|)
    ensures At(t, base, iters, k, i)
  {
  }

  /** Every step of every interleaving keeps the ring in order: there is at most one token,
      it carries the number of reads so far, and no signal register is overwritten. */
  lemma StepInv(s: Ring, t: Ring, base: seq<nat>, iters: Word)
    requires Inv(s, base, iters) && iters > 0 && Step(s, t, base)
    ensures Inv(t, base, iters)
  {
    var k: nat, i: nat :| At(s, base, iters, k, i);
    if StartStep(s, t, |base|) {
      StartStepAt(s, t, base, iters, k, i);
    } else if x: nat, q: nat, j: nat :| DmaStep(s, t, base, x, q, j) {
      DmaStepAt(s, t, base, iters, k, i, x, q, j);
    } else {
      var x: nat :| NodeStep(s, t, |base|, x);
      var v: Word :| var r := NodeNext(s.nodes[x], s.signals[x], v); t == s.(nodes := s.nodes[x := r.0], signals := s.signals[x := r.1]);
      if s.nodes[x].m.pc == ENTRY + 10 {
        ReadStep(s, t, base, iters, k, i, x, v);
      } else {
        SilentStep(s, t, base, iters, k, i, x, v);
      }
    }
  }

  // ---------- what the invariant says ----------

  /** At most one signal register is full, none has been overwritten, and the k-th read of
      SPE j, counted from 0, has delivered k * n + j, as far as a word can hold it. */
  lemma InvMeans(s: Ring, base: seq<nat>, iters: Word)
    requires Inv(s, base, iters)
    ensures !s.overrun
    ensures forall i, j :: 0 <= i < |base| && 0 <= j < |base| && s.signals[i].Full? && s.signals[j].Full? ==> i == j
    ensures forall j, k :: 0 <= j < |base| && 0 <= k < |s.nodes[j].seen| ==> s.nodes[j].seen[k] == Wrap(k * |base| + j)
    ensures forall j :: 0 <= j < |base| && s.nodes[j].run.Stopped? ==> s.nodes[j].run == Stopped(0x1337) && |s.nodes[j].seen| == iters
  {
    var k: nat, i: nat :| At(s, base, iters, k, i);
    forall j | 0 <= j < |base|
      ensures Reads(s.nodes[j].seen, |base|, j, k, i) && Position(s.nodes[j], ParamsOf(base, iters, j))
    {
    }
  }

  // ---------- no deadlock ----------

  ghost predicate CanStep(s: Ring, base: seq<nat>) {
    exists t :: Step(s, t, base)
  }

  lemma NodeCan(s: Ring, base: seq<nat>, x: nat)
    requires Shape(s, |base|) && x < |base| && NodeReady(s.nodes[x], s.signals[x])
    ensures CanStep(s, base)
  {
    var v: Word := 0;
    var r := NodeNext(s.nodes[x], s.signals[x], v);
    var t := s.(nodes := s.nodes[x := r.0], signals := s.signals[x := r.1]);
    assert NodeStep(s, t, |base|, x);
    assert Step(s, t, base);
  }

  /** The two halves of the address of a register make it up, and it lies in its quadword
      where the sent word lies in its own. */
  lemma AddressParts(b: nat)
    requires b % 0x1000 == 0
    ensures var a := SignalAddress(b); a / WORD * WORD + a % WORD == a && a % 16 == SLOT_ADDRESS % 16
  {
  }

  lemma DmaCan(s: Ring, base: seq<nat>, iters: Word, k: nat, i: nat, x: nat)
    requires At(s, base, iters, k, i) && x < |base| && s.nodes[x].mfc.queue != []
    ensures CanStep(s, base)
  {
    CommandIs(s, base, iters, k, i, x);
    var d, j := s.nodes[x], i;
    AddressParts(base[j]);
    var t := s.(nodes := s.nodes[x := d.(mfc := d.mfc.(queue := d.mfc.queue[..0] + d.mfc.queue[0 + 1..]))],
                signals := s.signals[j := Full(d.m.ls[SLOT_ADDRESS / 4])],
                overrun := s.overrun || s.signals[j].Full?);
    assert DmaStep(s, t, base, x, 0, j);
    assert Step(s, t, base);
  }

  /** A running SPE with an empty queue is ready unless it waits for a signal. */
  lemma ReadyUnlessReading(d: Node, signal: Signal, a: Params)
    requires Position(d, a) && d.run == Running && d.mfc.queue == []
    ensures NodeReady(d, signal) || (d.m.pc == ENTRY + 10 && signal == Empty)
  {
    Fetched(d.m);
    if d.m.pc == ENTRY + 22 { OnlyTag(d.mfc, a); }
  }

  ghost predicate AllStopped(s: Ring) {
    forall j {:trigger s.nodes[j]} :: 0 <= j < |s.nodes| ==> s.nodes[j].run == Stopped(0x1337)
  }

  /** The token is in a register whose SPE has stopped: then all are done. */
  lemma LastToken(s: Ring, base: seq<nat>, iters: Word, k: nat, i: nat)
    requires At(s, base, iters, k, i) && s.nodes[i].run.Stopped?
    requires forall j :: 0 <= j < |base| ==> s.nodes[j].run.Stopped? || s.nodes[j].m.pc == ENTRY + 10
    ensures AllStopped(s)
  {
    var n := |base|;
    assert Position(s.nodes[i], ParamsOf(base, iters, i)) && Reads(s.nodes[i].seen, n, i, k, i);
    assert k == iters && i == 0;
    forall j | 0 <= j < n ensures s.nodes[j].run == Stopped(0x1337) {
      assert Position(s.nodes[j], ParamsOf(base, iters, j)) && Reads(s.nodes[j].seen, n, j, k, i);
    }
  }

  /** As long as not all SPEs have stopped, somebody can make a step. */
  lemma NoDeadlock(s: Ring, base: seq<nat>, iters: Word)
    requires Inv(s, base, iters) && !CanStep(s, base)
    ensures s.started && AllStopped(s)
  {
    var k: nat, i: nat :| At(s, base, iters, k, i);
    var n := |base|;
    if !s.started {
      var t := s.(signals := s.signals[0 := Full(0)], started := true, overrun := s.overrun || s.signals[0].Full?);
      assert StartStep(s, t, n);
      assert Step(s, t, base);
    } else {
      forall j | 0 <= j < n
        ensures s.nodes[j].mfc.queue == []
                && (s.nodes[j].run.Stopped? || (s.nodes[j].m.pc == ENTRY + 10 && s.signals[j] == Empty))
      {
        if s.nodes[j].mfc.queue != [] { DmaCan(s, base, iters, k, i, j); }
        if s.nodes[j].run == Running {
          ReadyUnlessReading(s.nodes[j], s.signals[j], ParamsOf(base, iters, j));
          if NodeReady(s.nodes[j], s.signals[j]) { NodeCan(s, base, j); }
        }
      }
      assert !Owes(s.nodes[Before(i, n)]);
      assert s.signals[i].Full?;
      LastToken(s, base, iters, k, i);
    }
  }

  /** When a run has ended all SPEs have stopped with 0x1337 after exactly as many loops as
      they were told, and one number is left over in the register of the first. */
  lemma EndMeans(s: Ring, base: seq<nat>, iters: Word)
    requires Inv(s, base, iters) && iters > 0 && !CanStep(s, base)
    ensures forall j :: 0 <= j < |base| ==> s.nodes[j].run == Stopped(0x1337) && |s.nodes[j].seen| == iters && s.nodes[j].mfc.queue == []
    ensures forall j :: 0 < j < |base| ==> s.signals[j] == Empty
    ensures |base| > 0 && s.signals[0] == Full(Wrap(iters * |base|))
  {
    NoDeadlock(s, base, iters);
    var k: nat, i: nat :| At(s, base, iters, k, i);
    var n := |base|;
    forall j | 0 <= j < n
      ensures Position(s.nodes[j], ParamsOf(base, iters, j)) && Reads(s.nodes[j].seen, n, j, k, i)
              && s.nodes[j].run == Stopped(0x1337)
    {
    }
    assert Reads(s.nodes[0].seen, n, 0, k, i) && Reads(s.nodes[n - 1].seen, n, n - 1, k, i);
    assert i == 0 && k == iters;
    assert !Owes(s.nodes[Before(i, n)]);
  }

  // ---------- every run ends ----------

  /** How many instructions are left before the SPE waits for a signal again. */
  ghost function Left(d: Node, iters: nat): nat {
    if d.run.Stopped? || d.m.pc < ENTRY || |d.seen| > iters then 0
    else
      var p := d.m.pc - ENTRY;
      16 * (iters - |d.seen|) + if p < 10 then 12 - p else if p == 10 then 2 else if p < 25 then 27 - p else 1
  }

  ghost function Loads(s: Ring, n: nat, iters: nat): (q: seq<nat>)
    requires Shape(s, n)
    ensures |q| == n
  {
    seq(n, i requires 0 <= i < n => 2 * Left(s.nodes[i], iters) + |s.nodes[i].mfc.queue|)
  }

  ghost function Measure(s: Ring, n: nat, iters: nat): nat
    requires Shape(s, n)
  {
    Sum(Loads(s, n, iters)) + if s.started then 0 else 1
  }

  lemma NextLeft(d: Node, signal: Signal, r: (Node, Signal), a: Params)
    requires Position(d, a) && d.run == Running && Moves(d, signal, r, a.iters)
    ensures 2 * Left(r.0, a.iters) + |r.0.mfc.queue| < 2 * Left(d, a.iters) + |d.mfc.queue|
  {
  }

  lemma NodeStepMeasure(s: Ring, t: Ring, n: nat, x: nat, v: Word, a: Params)
    requires Shape(s, n) && Shape(t, n) && x < n && NodeReady(s.nodes[x], s.signals[x]) && Position(s.nodes[x], a)
    requires var r := NodeNext(s.nodes[x], s.signals[x], v); t == s.(nodes := s.nodes[x := r.0], signals := s.signals[x := r.1])
    ensures Measure(t, n, a.iters) < Measure(s, n, a.iters)
  {
    NextMoves(s.nodes[x], s.signals[x], v, a);
    NextLeft(s.nodes[x], s.signals[x], NodeNext(s.nodes[x], s.signals[x], v), a);
    var w, y := Loads(s, n, a.iters), Loads(t, n, a.iters)[x];
    assert Loads(t, n, a.iters) == w[x := y];
    SumUpdate(w, x, y);
  }

  lemma DmaStepMeasure(s: Ring, t: Ring, base: seq<nat>, iters: nat, x: nat, q: nat, j: nat)
    requires Shape(t, |base|) && DmaStep(s, t, base, x, q, j)
    ensures Measure(t, |base|, iters) < Measure(s, |base|, iters)
  {
    var w := Loads(s, |base|, iters);
    assert Loads(t, |base|, iters) == w[x := w[x] - 1];
    SumUpdate(w, x, w[x] - 1);
  }

  /** No run goes on for ever: every step makes the measure smaller. */
  lemma StepMeasure(s: Ring, t: Ring, base: seq<nat>, iters: Word)
    requires Inv(s, base, iters) && iters > 0 && Step(s, t, base)
    ensures Inv(t, base, iters) && Shape(t, |base|) && Measure(t, |base|, iters) < Measure(s, |base|, iters)
  {
    StepInv(s, t, base, iters);
    var k: nat, i: nat :| At(s, base, iters, k, i);
    if StartStep(s, t, |base|) {
      assert Loads(t, |base|, iters) == Loads(s, |base|, iters);
    } else if x: nat, q: nat, j: nat :| DmaStep(s, t, base, x, q, j) {
      DmaStepMeasure(s, t, base, iters, x, q, j);
    } else {
      var x: nat :| NodeStep(s, t, |base|, x);
      var v: Word :| var r := NodeNext(s.nodes[x], s.signals[x], v); t == s.(nodes := s.nodes[x := r.0], signals := s.signals[x := r.1]);
      NodeStepMeasure(s, t, |base|, x, v, ParamsOf(base, iters, x));
    }
  }

  // ---------- runs ----------

  ghost predicate IsRun(run: seq<Ring>, base: seq<nat>) {
    run != [] && forall i {:trigger run[i]} :: 0 < i < |run| ==> Step(run[i - 1], run[i], base)
  }

  lemma RunShorter(run: seq<Ring>, base: seq<nat>)
    requires IsRun(run, base) && |run| > 1
    ensures IsRun(run[..|run| - 1], base) && Step(run[|run| - 2], run[|run| - 1], base)
  {
    var n := |run| - 1;
    forall i | 0 < i < n ensures Step(run[..n][i - 1], run[..n][i], base) { assert Step(run[i - 1], run[i], base); }
    assert Step(run[n - 1], run[n], base);
  }

  lemma {:induction false} RunInv(run: seq<Ring>, base: seq<nat>, iters: Word)
    requires IsRun(run, base) && Initial(run[0], base, iters) && iters > 0
    ensures Inv(run[|run| - 1], base, iters) && Shape(run[0], |base|) && Shape(run[|run| - 1], |base|)
    ensures |run| - 1 + Measure(run[|run| - 1], |base|, iters) <= Measure(run[0], |base|, iters)
    decreases |run|
  {
    if |run| == 1 {
      InitialInv(run[0], base, iters);
    } else {
      RunShorter(run, base);
      RunInv(run[..|run| - 1], base, iters);
      StepMeasure(run[|run| - 2], run[|run| - 1], base, iters);
    }
  }

  /** Every run of a gang of any size, with any number of iterations, in any interleaving: it
      has bounded length, no signal register is ever overwritten, the k-th read of SPE j
      delivers k * n + j, and where it can go no further all SPEs have stopped with 0x1337
      after exactly their iterations, and one number is left over for the first. */
  lemma EveryRun(run: seq<Ring>, base: seq<nat>, iters: Word)
    requires IsRun(run, base) && Initial(run[0], base, iters) && iters > 0
    ensures var s, n := run[|run| - 1], |base|;
            && Shape(run[0], n) && Shape(s, n) && |run| <= 1 + Measure(run[0], n, iters)
            && !s.overrun
            && (forall j, k :: 0 <= j < n && 0 <= k < |s.nodes[j].seen| ==> s.nodes[j].seen[k] == Wrap(k * n + j))
            && (!CanStep(s, base) ==>
                  && (forall j :: 0 <= j < n ==> s.nodes[j].run == Stopped(0x1337) && |s.nodes[j].seen| == iters)
                  && (forall j :: 0 < j < n ==> s.signals[j] == Empty)
                  && n > 0 && s.signals[0] == Full(Wrap(iters * n)))
  {
    var s := run[|run| - 1];
    RunInv(run, base, iters);
    InvMeans(s, base, iters);
    if !CanStep(s, base) { EndMeans(s, base, iters); }
  }

  // ---------- setting up a gang ----------

  /** The program with its parameters, in a local store that was zero. */
  method FillStore(next: nat, iters: Word) returns (ls: seq<Word>)
    requires next < ADDRESSES
    ensures Store(ls, Params(next / WORD, next % WORD, iters))
    ensures ls[0] == next / 0x1_0000_0000 && ls[1] == next % 0x1_0000_0000 && ls[4] == iters
    ensures ls[12..38] == Code() && forall j :: 0 <= j < 0x1_0000 && !(12 <= j < 38) && j !in {0, 1, 4} ==> ls[j] == 0
  {
    var zero: Word := 0;
    ls := Program() + seq(LS_WORDS - 38, _ => zero);
    ls := ls[0 := next / WORD];
    ls := ls[1 := next % WORD];
    ls := ls[4 := iters];
    assert |Program()| == 38 && |Code()| == 26;
    forall j | 0 <= j < |Code()| ensures ls[ENTRY + j] == Code()[j] {
      assert Program()[ENTRY + j] == Code()[j];
    }
    assert forall j :: 0 <= j < 12 ==> Program()[j] == 0;
  }

  lemma NextIndex(i: nat, n: nat)
    requires i < n
    ensures (i + 1) % n == After(i, n)
  {
  }

  /** The loops of create_gang: a context for every SPE, and then, when all problem states
      have been mapped, its program and parameters. */
  method CreateGang(base: seq<nat>, iters: Word) returns (s: Ring)
    requires Mapped(base)
    ensures Initial(s, base, iters)
    ensures forall i {:trigger s.nodes[i]} :: 0 <= i < |base| ==>
              var ls := s.nodes[i].m.ls;
              && ls[0] as int * 0x1_0000_0000 + ls[1] == base[if i + 1 == |base| then 0 else i + 1] + 0x1400c
              && ls[4] == iters && s.nodes[i].m.pc == 12
  {
    var n := |base|;
    var zero: Word := 0;
    var nodes: seq<Node> := [];
    var i := 0;
    while i < n
      invariant 0 <= i <= n && |nodes| == i
      invariant forall j {:trigger nodes[j]} :: 0 <= j < i ==>
                  var d := nodes[j];
                  && Proper(d.m) && d.m.pc == ENTRY && d.run == Running && d.seen == [] && Idle(d.mfc)
                  && Store(d.m.ls, ParamsOf(base, iters, j))
    {
      NextIndex(i, n);
      var next := base[(i + 1) % n] + PSMAP_SIGNAL1_OFFSET;
      var ls := FillStore(next, iters);
      nodes := nodes + [Node(Machine(ENTRY, seq(128, _ => Splat(zero)), ls), Running, Mfc(0, 0, 0, 0, 0, 0, false, []), [])];
      i := i + 1;
    }
    s := Ring(nodes, seq(n, _ => Empty), false, false);
  }
}
