/** The part of the SPU Instruction Set Architecture (version 1.2) that the test programs
    use: sections 3 to 7 for the instructions, section 10 for stop, section 11 for the
    channel instructions.  A machine has 128 registers of four words, a local store of 256
    KiB and a program counter.  The local store is a sequence of 65536 words, and the program
    counter is the index of a word, a fourth of its address. */
module Spu {
  import opened Words

  const ONES: Word := 0xffff_ffff
  const LS_WORDS: nat := 0x10000

  datatype Quad = Quad(w0: Word, w1: Word, w2: Word, w3: Word)

  function Wrap(x: int): Word { x % WORD }

  lemma WrapPlus(x: nat)
    ensures Wrap(Wrap(x) + 1) == Wrap(x + 1)
  {
  }

  function Splat(w: Word): Quad { Quad(w, w, w, w) }

  datatype Machine = Machine(pc: nat, regs: seq<Quad>, ls: seq<Word>)

  predicate Proper(m: Machine) {
    |m.regs| == 128 && |m.ls| == LS_WORDS && m.pc < LS_WORDS
  }

  // ---------- decoding ----------

  datatype Instruction =
    | Il(rt: nat, imm: int)
    | Ila(rt: nat, imm: int)
    | Fsmbi(rt: nat, mask: nat)
    | Ai(rt: nat, ra: nat, imm: int)
    | Ceq(rt: nat, ra: nat, rb: nat)
    | Lqa(rt: nat, imm: int)
    | Stqa(rt: nat, imm: int)
    | Shlqbyi(rt: nat, ra: nat, count: nat)
    | Shufb(rt: nat, ra: nat, rb: nat, rc: nat)
    | Brz(rt: nat, imm: int)
    | Brnz(rt: nat, imm: int)
    | Rdch(rt: nat, ch: nat)
    | Wrch(ch: nat, rt: nat)
    | Stop(code: nat)
    | Unknown

  function Signed(x: nat, width: nat): int {
    if x < width / 2 then x else x - width
  }

  function Decode(w: Word): (i: Instruction)
    ensures i.Il? || i.Ila? || i.Fsmbi? || i.Ai? || i.Ceq? || i.Lqa? || i.Stqa? || i.Shlqbyi? || i.Brz? || i.Brnz?
            ==> i.rt < 128
    ensures i.Rdch? || i.Wrch? ==> i.rt < 128 && i.ch < 128
    ensures i.Ai? || i.Ceq? || i.Shlqbyi? ==> i.ra < 128
    ensures i.Ceq? ==> i.rb < 128
    ensures i.Shufb? ==> i.rt < 128 && i.ra < 128 && i.rb < 128 && i.rc < 128
  {
    var rt, ra, rb := w % 0x80, w / 0x80 % 0x80, w / 0x4000 % 0x80;
    var i16 := w / 0x80 % 0x10000;
    if w / 0x800000 == 0x81 then Il(rt, Signed(i16, 0x10000))
    else if w / 0x2000000 == 0x21 then Ila(rt, w / 0x80 % 0x40000)
    else if w / 0x800000 == 0x65 then Fsmbi(rt, i16)
    else if w / 0x1000000 == 0x1c then Ai(rt, ra, Signed(w / 0x4000 % 0x400, 0x400))
    else if w / 0x200000 == 0x3c0 then Ceq(rt, ra, rb)
    else if w / 0x800000 == 0x61 then Lqa(rt, Signed(i16, 0x10000))
    else if w / 0x800000 == 0x41 then Stqa(rt, Signed(i16, 0x10000))
    else if w / 0x200000 == 0x1ff then Shlqbyi(rt, ra, rb)
    else if w / 0x10000000 == 0xb then Shufb(w / 0x200000 % 0x80, ra, rb, rt)
    else if w / 0x800000 == 0x40 then Brz(rt, Signed(i16, 0x10000))
    else if w / 0x800000 == 0x42 then Brnz(rt, Signed(i16, 0x10000))
    else if w / 0x200000 == 0xd then Rdch(rt, ra)
    else if w / 0x200000 == 0x10d then Wrch(ra, rt)
    else if w / 0x200000 == 0 then Stop(w % 0x4000)
    else Unknown
  }

  // ---------- bytes ----------

  /** Byte k of q, where byte 0 is the most significant one of word 0. */
  function ByteAt(q: Quad, k: nat): Byte
    requires k < 16
  {
    var w := if k < 4 then q.w0 else if k < 8 then q.w1 else if k < 12 then q.w2 else q.w3;
    if k % 4 == 0 then w / 0x1000000 else if k % 4 == 1 then w / 0x10000 % 0x100
    else if k % 4 == 2 then w / 0x100 % 0x100 else w % 0x100
  }

  function WordOf(a: Byte, b: Byte, c: Byte, d: Byte): Word {
    a * 0x1000000 + b * 0x10000 + c * 0x100 + d
  }

  /** Byte k of the result of shufb. */
  function Shuffled(a: Quad, b: Quad, c: Quad, k: nat): Byte {
    if k >= 16 then 0
    else
      var p := ByteAt(c, k);
      if p >= 0xe0 then 0x80 else if p >= 0xc0 then 0xff else if p >= 0x80 then 0
      else if p % 32 < 16 then ByteAt(a, p % 32) else ByteAt(b, p % 32 - 16)
  }

  function ShiftedLeft(a: Quad, count: nat, k: nat): Byte {
    if k < 16 && k + count % 32 < 16 then ByteAt(a, k + count % 32) else 0
  }

  /** Byte k is all ones exactly when bit k of the mask is set, bit 0 being the highest. */
  function MaskByte(mask: nat, k: nat): Byte {
    if k < 16 && mask / Power(15 - k) % 2 == 1 then 0xff else 0
  }

  function Power(k: nat): (p: nat)
    ensures p > 0
  {
    if k == 0 then 1 else 2 * Power(k - 1)
  }

  lemma WordBytes(w: Word)
    ensures WordOf(w / 0x1000000, w / 0x10000 % 0x100, w / 0x100 % 0x100, w % 0x100) == w
  {
    var y := w / 0x100;
    var x := y / 0x100;
    ByteByByte(w);
    assert w == y * 0x100 + w % 0x100 && y == x * 0x100 + y % 0x100 && x == x / 0x100 * 0x100 + x % 0x100;
  }

  // Every word of a quadword is what its four bytes make.

  lemma BytesOf0(q: Quad)
    ensures WordOf(ByteAt(q, 0), ByteAt(q, 1), ByteAt(q, 2), ByteAt(q, 3)) == q.w0
  {
    WordBytes(q.w0);
    assert ByteAt(q, 0) == q.w0 / 0x1000000 && ByteAt(q, 1) == q.w0 / 0x10000 % 0x100;
  }

  lemma BytesOf1(q: Quad)
    ensures WordOf(ByteAt(q, 4), ByteAt(q, 5), ByteAt(q, 6), ByteAt(q, 7)) == q.w1
  {
    WordBytes(q.w1);
    assert ByteAt(q, 4) == q.w1 / 0x1000000 && ByteAt(q, 5) == q.w1 / 0x10000 % 0x100;
  }

  lemma BytesOf2(q: Quad)
    ensures WordOf(ByteAt(q, 8), ByteAt(q, 9), ByteAt(q, 10), ByteAt(q, 11)) == q.w2
  {
    WordBytes(q.w2);
    assert ByteAt(q, 8) == q.w2 / 0x1000000 && ByteAt(q, 9) == q.w2 / 0x10000 % 0x100;
  }

  lemma BytesOf3(q: Quad)
    ensures WordOf(ByteAt(q, 12), ByteAt(q, 13), ByteAt(q, 14), ByteAt(q, 15)) == q.w3
  {
    WordBytes(q.w3);
    assert ByteAt(q, 12) == q.w3 / 0x1000000 && ByteAt(q, 13) == q.w3 / 0x10000 % 0x100;
  }

  lemma QuadBytes(q: Quad)
    ensures WordOf(ByteAt(q, 0), ByteAt(q, 1), ByteAt(q, 2), ByteAt(q, 3)) == q.w0
    ensures WordOf(ByteAt(q, 4), ByteAt(q, 5), ByteAt(q, 6), ByteAt(q, 7)) == q.w1
    ensures WordOf(ByteAt(q, 8), ByteAt(q, 9), ByteAt(q, 10), ByteAt(q, 11)) == q.w2
    ensures WordOf(ByteAt(q, 12), ByteAt(q, 13), ByteAt(q, 14), ByteAt(q, 15)) == q.w3
  {
    BytesOf0(q);
    BytesOf1(q);
    BytesOf2(q);
    BytesOf3(q);
  }

  /** A pattern byte below 16 selects a byte of the first operand. */
  lemma ShuffledAt(a: Quad, c: Quad, k: nat)
    requires c == Splat(0x0001_0203) && k < 16
    ensures Shuffled(a, a, c, k) == ByteAt(a, k % 4)
  {
    var w: Word := 0x0001_0203;
    assert w / 0x1000000 == 0 && w / 0x10000 % 0x100 == 1 && w / 0x100 % 0x100 == 2 && w % 0x100 == 3;
    assert ByteAt(c, k) == k % 4;
  }

  ghost predicate IsBytes(f: nat -> Byte, q: Quad) {
    forall k: nat {:trigger ByteAt(q, k)} :: k < 16 ==> ByteAt(q, k) == f(k)
  }

  /** The last byte and the rest of a number. */
  lemma LastByte(high: nat, d: Byte)
    ensures (high * 0x100 + d) / 0x100 == high && (high * 0x100 + d) % 0x100 == d
  {
  }

  /** Dividing away one byte after the other. */
  lemma ByteByByte(w: nat)
    ensures w / 0x10000 == w / 0x100 / 0x100 && w / 0x1000000 == w / 0x100 / 0x100 / 0x100
  {
  }

  lemma BytesOfWord(a: Byte, b: Byte, c: Byte, d: Byte)
    ensures var w := WordOf(a, b, c, d);
            w / 0x1000000 == a && w / 0x10000 % 0x100 == b && w / 0x100 % 0x100 == c && w % 0x100 == d
  {
    var x: nat := a * 0x100 + b;
    var y: nat := x * 0x100 + c;
    LastByte(a, b);
    LastByte(x, c);
    LastByte(y, d);
    ByteByByte(y * 0x100 + d);
    assert WordOf(a, b, c, d) == y * 0x100 + d;
  }

  lemma BytesExist(f: nat -> Byte)
    ensures exists q :: IsBytes(f, q)
  {
    var q := Quad(WordOf(f(0), f(1), f(2), f(3)), WordOf(f(4), f(5), f(6), f(7)),
                  WordOf(f(8), f(9), f(10), f(11)), WordOf(f(12), f(13), f(14), f(15)));
    forall k: nat | k < 16 ensures ByteAt(q, k) == f(k) {
      if k < 4 { BytesOfWord(f(0), f(1), f(2), f(3)); }
      else if k < 8 { BytesOfWord(f(4), f(5), f(6), f(7)); }
      else if k < 12 { BytesOfWord(f(8), f(9), f(10), f(11)); }
      else { BytesOfWord(f(12), f(13), f(14), f(15)); }
    }
    assert IsBytes(f, q);
  }

  /** The quadword with the bytes f(0), .., f(15). */
  ghost function FromBytes(f: nat -> Byte): (q: Quad) {
    BytesExist(f);
    var q :| IsBytes(f, q); q
  }

  ghost function Mask(mask: nat): Quad { FromBytes(k => MaskByte(mask, k)) }

  ghost function ShiftLeft(a: Quad, count: nat): Quad { FromBytes(k => ShiftedLeft(a, count, k)) }

  ghost function Shuffle(a: Quad, b: Quad, c: Quad): Quad { FromBytes(k => Shuffled(a, b, c, k)) }

  /** A quadword is what its bytes make. */
  lemma Assembled(f: nat -> Byte, q: Quad)
    requires IsBytes(f, q)
    ensures FromBytes(f) == q
  {
    QuadBytes(FromBytes(f));
    QuadBytes(q);
  }

  /** With the pattern 00010203 in every word, shufb copies word 0 to all words. */
  lemma SplatBytes(a: Quad, c: Quad)
    requires c == Splat(0x0001_0203)
    ensures Shuffle(a, a, c) == Splat(a.w0)
  {
    forall k: nat | k < 16 ensures Shuffled(a, a, c, k) == ByteAt(Splat(a.w0), k) {
      ShuffledAt(a, c, k);
    }
    Assembled(k => Shuffled(a, a, c, k), Splat(a.w0));
  }

  /** shlqbyi by 4 moves every word one place up. */
  lemma ShiftWord(a: Quad)
    ensures ShiftLeft(a, 4) == Quad(a.w1, a.w2, a.w3, 0)
  {
    forall k: nat | k < 16 ensures ShiftedLeft(a, 4, k) == ByteAt(Quad(a.w1, a.w2, a.w3, 0), k) {
    }
    Assembled(k => ShiftedLeft(a, 4, k), Quad(a.w1, a.w2, a.w3, 0));
  }

  /** fsmbi with the mask f000 sets exactly the bytes of word 0. */
  lemma MaskTopWord()
    ensures Mask(0xf000) == Quad(ONES, 0, 0, 0)
  {
    forall k: nat | k < 16 ensures ByteAt(Quad(ONES, 0, 0, 0), k) == MaskByte(0xf000, k) {
      MaskTop(k);
      TopByte(k);
    }
    Assembled(k => MaskByte(0xf000, k), Quad(ONES, 0, 0, 0));
  }

  lemma TopByte(k: nat)
    requires k < 16
    ensures ByteAt(Quad(ONES, 0, 0, 0), k) == if k < 4 then 0xff else 0
  {
    var w := ONES;
    assert w / 0x1000000 == 0xff && w / 0x10000 % 0x100 == 0xff && w / 0x100 % 0x100 == 0xff && w % 0x100 == 0xff;
  }

  lemma Powers()
    ensures Power(0) == 0x1
    ensures Power(1) == 0x2
    ensures Power(2) == 0x4
    ensures Power(3) == 0x8
    ensures Power(4) == 0x10
    ensures Power(5) == 0x20
    ensures Power(6) == 0x40
    ensures Power(7) == 0x80
    ensures Power(8) == 0x100
    ensures Power(9) == 0x200
    ensures Power(10) == 0x400
    ensures Power(11) == 0x800
    ensures Power(12) == 0x1000
    ensures Power(13) == 0x2000
    ensures Power(14) == 0x4000
    ensures Power(15) == 0x8000
  {
    assert Power(3) == 8 && Power(6) == 0x40 && Power(9) == 0x200 && Power(12) == 0x1000;
  }

  lemma MaskTop(k: nat)
    requires k < 16
    ensures MaskByte(0xf000, k) == if k < 4 then 0xff else 0
  {
    Powers();
    if k == 0 { assert 0xf000 / 0x8000 == 1; }
    else if k == 1 { assert 0xf000 / 0x4000 == 3; }
    else if k == 2 { assert 0xf000 / 0x2000 == 7; }
    else if k == 3 { assert 0xf000 / 0x1000 == 15; }
    else if k == 4 { assert 0xf000 / 0x800 == 30; }
    else if k == 5 { assert 0xf000 / 0x400 == 60; }
    else if k == 6 { assert 0xf000 / 0x200 == 120; }
    else if k == 7 { assert 0xf000 / 0x100 == 240; }
    else if k == 8 { assert 0xf000 / 0x80 == 480; }
    else if k == 9 { assert 0xf000 / 0x40 == 960; }
    else if k == 10 { assert 0xf000 / 0x20 == 1920; }
    else if k == 11 { assert 0xf000 / 0x10 == 3840; }
    else if k == 12 { assert 0xf000 / 0x8 == 7680; }
    else if k == 13 { assert 0xf000 / 0x4 == 15360; }
    else if k == 14 { assert 0xf000 / 0x2 == 30720; }
    else { assert 0xf000 / 0x1 == 61440; }
  }

  // ---------- executing ----------

  function Fetch(m: Machine): Instruction
    requires Proper(m)
  {
    Decode(m.ls[m.pc])
  }

  /** Instruction addresses wrap around at the end of the local store. */
  function Goto(pc: int): (g: nat)
    ensures g < LS_WORDS
  {
    pc % LS_WORDS
  }

  /** The first word of the quadword that holds word imm of the local store. */
  function QuadIndex(imm: int): (i: nat)
    ensures i + 3 < LS_WORDS && i % 4 == 0
  {
    imm % LS_WORDS / 4 * 4
  }

  predicate IsLocal(i: Instruction) {
    !i.Rdch? && !i.Wrch? && !i.Stop? && !i.Unknown?
  }

  function SetReg(m: Machine, rt: nat, q: Quad): Machine
    requires Proper(m) && rt < 128
  {
    m.(pc := Goto(m.pc + 1), regs := m.regs[rt := q])
  }

  function Equal(a: Word, b: Word): Word { if a == b then ONES else 0 }

  /** One instruction other than stop and the channel instructions. */
  ghost function Execute(m: Machine): (m': Machine)
    requires Proper(m) && IsLocal(Fetch(m))
    ensures Proper(m')
  {
    match Fetch(m)
    case Il(rt, imm) => SetReg(m, rt, Splat(Wrap(imm)))
    case Ila(rt, imm) => SetReg(m, rt, Splat(Wrap(imm)))
    case Fsmbi(rt, mask) => SetReg(m, rt, Mask(mask))
    case Ai(rt, ra, imm) =>
      var a := m.regs[ra];
      SetReg(m, rt, Quad(Wrap(a.w0 + imm), Wrap(a.w1 + imm), Wrap(a.w2 + imm), Wrap(a.w3 + imm)))
    case Ceq(rt, ra, rb) =>
      var a, b := m.regs[ra], m.regs[rb];
      SetReg(m, rt, Quad(Equal(a.w0, b.w0), Equal(a.w1, b.w1), Equal(a.w2, b.w2), Equal(a.w3, b.w3)))
    case Lqa(rt, imm) =>
      var i := QuadIndex(imm);
      SetReg(m, rt, Quad(m.ls[i], m.ls[i + 1], m.ls[i + 2], m.ls[i + 3]))
    case Stqa(rt, imm) =>
      var i, q := QuadIndex(imm), m.regs[rt];
      m.(pc := Goto(m.pc + 1), ls := m.ls[i := q.w0][i + 1 := q.w1][i + 2 := q.w2][i + 3 := q.w3])
    case Shlqbyi(rt, ra, count) => SetReg(m, rt, ShiftLeft(m.regs[ra], count))
    case Shufb(rt, ra, rb, rc) => SetReg(m, rt, Shuffle(m.regs[ra], m.regs[rb], m.regs[rc]))
    case Brz(rt, imm) => m.(pc := Goto(if m.regs[rt].w0 == 0 then m.pc + imm else m.pc + 1))
    case Brnz(rt, imm) => m.(pc := Goto(if m.regs[rt].w0 != 0 then m.pc + imm else m.pc + 1))
    case _ => m
  }

  /** rdch when the channel delivers v: it goes to the preferred slot, word 0. */
  function Receive(m: Machine, rt: nat, v: Word): Machine
    requires Proper(m) && rt < 128
  {
    SetReg(m, rt, Quad(v, 0, 0, 0))
  }

  /** wrch and stop change nothing but the program counter. */
  function Next(m: Machine): (m': Machine)
    requires Proper(m)
    ensures Proper(m')
  {
    m.(pc := Goto(m.pc + 1))
  }

  // ---------- saving and restoring a context ----------

  /** Word j of q. */
  function WordAt(q: Quad, j: nat): Word
    requires j < 4
  {
    if j == 0 then q.w0 else if j == 1 then q.w1 else if j == 2 then q.w2 else q.w3
  }

  /** The registers, the local store and the program counter as one list of words. */
  function Save(m: Machine): seq<Word>
    requires Proper(m)
  {
    seq(512, i requires 0 <= i < 512 => WordAt(m.regs[i / 4], i % 4)) + m.ls + [m.pc]
  }

  function Restore(image: seq<Word>): Machine
    requires |image| == 512 + LS_WORDS + 1
  {
    Machine(image[512 + LS_WORDS],
            seq(128, i requires 0 <= i < 128 => Quad(image[4 * i], image[4 * i + 1], image[4 * i + 2], image[4 * i + 3])),
            image[512..512 + LS_WORDS])
  }

  /** A context that is saved and restored goes on as if nothing had happened. */
  lemma RestoreSave(m: Machine)
    requires Proper(m)
    ensures |Save(m)| == 512 + LS_WORDS + 1 && Restore(Save(m)) == m
  {
    var r := Restore(Save(m));
    forall i | 0 <= i < 128 ensures r.regs[i] == m.regs[i] {
      assert 4 * i / 4 == i && (4 * i + 1) / 4 == i && (4 * i + 2) / 4 == i && (4 * i + 3) / 4 == i;
      assert 4 * i % 4 == 0 && (4 * i + 1) % 4 == 1 && (4 * i + 2) % 4 == 2 && (4 * i + 3) % 4 == 3;
    }
    assert r.regs == m.regs;
    assert r.ls == m.ls;
  }
}
