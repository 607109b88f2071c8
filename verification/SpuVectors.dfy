/** What single machine words of the test programs do to a machine, written out: registers,
    local store and program counter.  (SPU Instruction Set Architecture, version 1.2.) */
module SpuVectors {
  import opened Words
  import opened Spu

  /** The machine is about to execute the machine word w. */
  ghost predicate At(m: Machine, w: Word) {
    |m.regs| == 128 && |m.ls| == 0x1_0000 && m.pc < 0xffff && m.ls[m.pc] == w
  }

  /** Only register rt changes, to q, and the next instruction is the next word. */
  ghost predicate Sets(m: Machine, t: Machine, rt: nat, q: Quad)
    requires |m.regs| == 128 && rt < 128
  {
    t.pc == m.pc + 1 && t.ls == m.ls && t.regs == m.regs[rt := q]
  }

  /** il r6,4 */
  lemma Il(m: Machine)
    requires At(m, 0x4080_0206)
    ensures Fetch(m) == Instruction.Il(6, 4) && Sets(m, Execute(m), 6, Quad(4, 4, 4, 4))
  {
    assert Decode(0x4080_0206) == Instruction.Il(6, 4);
  }

  /** ila r11,0x10203 */
  lemma Ila(m: Machine)
    requires At(m, 0x4281_018b)
    ensures IsLocal(Fetch(m)) && Sets(m, Execute(m), 11, Quad(0x1_0203, 0x1_0203, 0x1_0203, 0x1_0203))
  {
    assert Decode(0x4281_018b) == Instruction.Ila(11, 0x1_0203);
  }

  /** ai r3,r3,-1 */
  lemma Ai(m: Machine)
    requires At(m, 0x1cff_c183)
    ensures var a := m.regs[3];
            && IsLocal(Fetch(m))
            && Sets(m, Execute(m), 3, Quad(Less(a.w0), Less(a.w1), Less(a.w2), Less(a.w3)))
  {
    assert Decode(0x1cff_c183) == Instruction.Ai(3, 3, -1);
  }

  function Less(w: Word): Word { if w == 0 then 0xffff_ffff else w - 1 }

  /** lqa r3,0x10 */
  lemma Lqa(m: Machine)
    requires At(m, 0x3080_0203)
    ensures IsLocal(Fetch(m)) && Sets(m, Execute(m), 3, Quad(m.ls[4], m.ls[5], m.ls[6], m.ls[7]))
  {
    assert Decode(0x3080_0203) == Instruction.Lqa(3, 4);
  }

  /** stqa r10,0x20 */
  lemma Stqa(m: Machine)
    requires At(m, 0x2080_040a)
    ensures var q, t := m.regs[10], Execute(m);
            && IsLocal(Fetch(m)) && t.pc == m.pc + 1 && t.regs == m.regs && |t.ls| == |m.ls|
            && t.ls[8] == q.w0 && t.ls[9] == q.w1 && t.ls[10] == q.w2 && t.ls[11] == q.w3
            && forall j :: 0 <= j < 0x1_0000 && !(8 <= j < 12) ==> t.ls[j] == m.ls[j]
  {
    assert Decode(0x2080_040a) == Instruction.Stqa(10, 8);
  }

  /** ceq r3,r1,r2 */
  lemma Ceq(m: Machine)
    requires At(m, 0x7800_8083)
    ensures var a, b := m.regs[1], m.regs[2];
            && IsLocal(Fetch(m))
            && Sets(m, Execute(m), 3, Quad(if a.w0 == b.w0 then 0xffff_ffff else 0,
                                           if a.w1 == b.w1 then 0xffff_ffff else 0,
                                           if a.w2 == b.w2 then 0xffff_ffff else 0,
                                           if a.w3 == b.w3 then 0xffff_ffff else 0))
  {
    assert Decode(0x7800_8083) == Instruction.Ceq(3, 1, 2);
  }

  /** fsmbi r5,0xf000 */
  lemma Fsmbi(m: Machine)
    requires At(m, 0x32f8_0005)
    ensures IsLocal(Fetch(m)) && Sets(m, Execute(m), 5, Quad(0xffff_ffff, 0, 0, 0))
  {
    assert Decode(0x32f8_0005) == Instruction.Fsmbi(5, 0xf000);
    MaskTopWord();
  }

  /** shlqbyi r2,r1,4 */
  lemma Shlqbyi(m: Machine)
    requires At(m, 0x3fe1_0082)
    ensures var a := m.regs[1]; IsLocal(Fetch(m)) && Sets(m, Execute(m), 2, Quad(a.w1, a.w2, a.w3, 0))
  {
    assert Decode(0x3fe1_0082) == Instruction.Shlqbyi(2, 1, 4);
    ShiftWord(m.regs[1]);
  }

  /** shufb r10,r10,r10,r11 with the pattern 00010203 in r11 */
  lemma Shufb(m: Machine)
    requires At(m, 0xb142_850b) && m.regs[11] == Quad(0x1_0203, 0x1_0203, 0x1_0203, 0x1_0203)
    ensures var a := m.regs[10]; IsLocal(Fetch(m)) && Sets(m, Execute(m), 10, Quad(a.w0, a.w0, a.w0, a.w0))
  {
    assert Decode(0xb142_850b) == Instruction.Shufb(10, 10, 10, 11);
    SplatBytes(m.regs[10], m.regs[11]);
  }

  /** brnz r3,-14 words */
  lemma Brnz(m: Machine)
    requires At(m, 0x217f_f903) && m.pc >= 14
    ensures var t := Execute(m);
            && IsLocal(Fetch(m)) && t.regs == m.regs && t.ls == m.ls
            && t.pc == if m.regs[3].w0 == 0 then m.pc + 1 else m.pc - 14
  {
    assert Decode(0x217f_f903) == Instruction.Brnz(3, -14);
  }

  /** brz r3,2 words */
  lemma Brz(m: Machine)
    requires At(m, 0x2000_0103) && m.pc < 0xfffe
    ensures var t := Execute(m);
            && IsLocal(Fetch(m)) && t.regs == m.regs && t.ls == m.ls
            && t.pc == if m.regs[3].w0 == 0 then m.pc + 2 else m.pc + 1
  {
    assert Decode(0x2000_0103) == Instruction.Brz(3, 2);
  }

  /** rdch r3,ch29: the message goes to the first word of the register, the others are zero. */
  lemma Rdch(m: Machine, v: Word)
    requires At(m, 0x01a0_0e83)
    ensures Fetch(m) == Instruction.Rdch(3, 29) && Sets(m, Receive(m, 3, v), 3, Quad(v, 0, 0, 0))
  {
    assert Decode(0x01a0_0e83) == Instruction.Rdch(3, 29);
  }

  /** wrch ch16,r4, and stop 0x1337: only the program counter changes. */
  lemma WrchAndStop(m: Machine)
    requires At(m, 0x21a0_0804) || At(m, 0x1337)
    ensures Fetch(m) == if At(m, 0x1337) then Instruction.Stop(0x1337) else Instruction.Wrch(16, 4)
    ensures Next(m) == m.(pc := m.pc + 1)
  {
    assert Decode(0x21a0_0804) == Instruction.Wrch(16, 4);
    assert Decode(0x1337) == Instruction.Stop(0x1337);
  }
}
