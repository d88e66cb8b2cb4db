/**
 The words of the LC-3 and their fields: each format of an instruction written as a
 number, encoded and decoded. The other widths are those of the general encoder.
 */
module Words {
  import opened Bits
  import opened Encoding

  /** 16 bits, with 4 for the opcode, 3 for a register and p for a parameter. */
  function LC3(p: nat): Layout { Layout(16, 4, 3, p) }

  lemma Powers()
    ensures P(1) == 2 && P(2) == 4 && P(3) == 8 && P(4) == 0x10 && P(5) == 0x20 && P(6) == 0x40
    ensures P(8) == 0x100 && P(9) == 0x200 && P(11) == 0x800 && P(12) == 0x1000
  {
    assert P(1) == 2 && P(2) == 4 && P(3) == 8 && P(4) == 16;
    assert P(5) == 2 * P(4) && P(6) == 2 * P(5) && P(8) == 4 * P(6) && P(9) == 2 * P(8);
    assert P(11) == 4 * P(9) && P(12) == 2 * P(11);
  }

  /** The word of the fields is w, and taking w apart gives the fields back. */
  predicate Codes(p: nat, f: Fields, w: int)
    requires p < 6
  {
    Make(LC3(p), f) == Option.Some(w) && Parse(LC3(p), w) == Option.Some(f)
  }

  /** Fields that pass the checks and fit, with the word that they give. */
  predicate Sound(p: nat, f: Fields, w: int)
    requires p < 6
  {
    Shaped(f) && Checked(LC3(p), f) && Representable(LC3(p), f) && Word(LC3(p), f) == w
  }

  /** Such fields are encoded to that word, which decodes to them. */
  lemma SoundCodes(l: Layout, p: nat, f: Fields, w: int)
    requires p < 6 && l == LC3(p) && Sound(p, f, w)
    ensures Codes(p, f, w)
  {
    DecodeEncoded(l, f);
  }

  /** A register and a number: branches, LD, LDI, LEA, ST and STI. */
  lemma RegisterNumber(p: nat, op: int, r: int, k: int)
    requires p < 6 && op in {0, 2, 3, 10, 11, 14} && 0 <= r < 8 && -256 <= k < 256
    ensures Sound(p, RI(op, r, k), op * 0x1000 + r * 0x200 + k % 0x200)
  {
    Powers();
  }

  /** Three registers: ADD and AND. */
  lemma ThreeRegisters(p: nat, op: int, r1: int, r2: int, r3: int)
    requires p < 6 && op in {1, 5} && 0 <= r1 < 8 && 0 <= r2 < 8 && 0 <= r3 < 8
    ensures Sound(p, RRR(op, r1, r2, r3), op * 0x1000 + r1 * 0x200 + r2 * 0x40 + r3)
  {
    Powers();
  }

  /** Two registers and a small number: ADD and AND. */
  lemma TwoRegistersImmediate(p: nat, op: int, r1: int, r2: int, k: int)
    requires p < 6 && op in {1, 5} && 0 <= r1 < 8 && 0 <= r2 < 8 && -16 <= k < 16
    ensures Sound(p, RRIF(op, r1, r2, k), op * 0x1000 + r1 * 0x200 + r2 * 0x40 + 0x20 + k % 0x20)
  {
    Powers();
  }

  /** Two registers and a number: LDR, STR and RTI; the checks refuse the least number. */
  lemma TwoRegistersOffset(p: nat, op: int, r1: int, r2: int, k: int)
    requires p < 6 && op in {6, 7, 8} && 0 <= r1 < 8 && 0 <= r2 < 8 && -32 < k < 32
    ensures Sound(p, RRI(op, r1, r2, k), op * 0x1000 + r1 * 0x200 + r2 * 0x40 + k % 0x40)
  {
    Powers();
  }

  /** Two registers, a parameter and a number: the reserved opcode. */
  lemma TwoRegistersParameter(r1: int, r2: int, par: int, low: int)
    requires 0 <= r1 < 8 && 0 <= r2 < 8 && 0 <= par < 8 && 0 <= low < 8
    ensures Sound(3, RRPI(13, r1, r2, par, low), 0xd000 + r1 * 0x200 + r2 * 0x40 + par * 8 + low)
  {
    Powers();
  }

  /** Two registers: NOT. */
  lemma TwoRegisters(p: nat, r1: int, r2: int)
    requires p < 6 && 0 <= r1 < 8 && 0 <= r2 < 8
    ensures Sound(p, RR(9, r1, r2), 0x9000 + r1 * 0x200 + r2 * 0x40)
  {
    Powers();
  }

  /** The second register alone: a call through a register, and JMP. */
  lemma SecondRegister(p: nat, op: int, r: int)
    requires p < 6 && op in {4, 12} && 0 <= r < 8
    ensures Sound(p, R2(op, r), op * 0x1000 + r * 0x40)
  {
    Powers();
  }

  /** A call to a place nearby. */
  lemma NumberAlone(p: nat, k: int)
    requires p < 6 && -1024 <= k < 1024
    ensures Sound(p, IF(4, k), 0x4800 + k % 0x800)
  {
    Powers();
  }

  /** A trap with its vector. */
  lemma Vector(p: nat, v: int)
    requires p < 6 && 0 <= v < 0x800
    ensures Sound(p, T(15, v), 0xf000 + v)
  {
    Powers();
  }
}
