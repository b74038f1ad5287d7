/** The Jenkins hash of memcached keys: three ways of reading the key, one
    value. */
module JenkinsHash {
  type Word = bv32

  /** The internal state (a, b, c). */
  datatype Abc = Abc(a: Word, b: Word, c: Word)

  function Rot(x: Word, k: nat): Word
    requires 0 < k < 32
  {
    (x << (k as bv6)) ^ (x >> ((32 - k) as bv6))
  }

  function Plus(x: Word, y: Word): Word { x + y }
  function Minus(x: Word, y: Word): Word { x - y }
  function Xor(x: Word, y: Word): Word { x ^ y }

  // ---- mix and final are reversible ----------------------------------------------

  /** `x -= z; x ^= rot(z, k); z += y;`, one sixth of mix. */
  function Stir(x: Word, z: Word, k: nat): Word
    requires 0 < k < 32
  {
    Xor(Minus(x, z), Rot(z, k))
  }

  function Unstir(x: Word, z: Word, k: nat): Word
    requires 0 < k < 32
  {
    Plus(Xor(x, Rot(z, k)), z)
  }

  lemma UnstirStir(x: Word, z: Word, k: nat)
    requires 0 < k < 32
    ensures Unstir(Stir(x, z, k), z, k) == x && Stir(Unstir(x, z, k), z, k) == x
  {
    hide Rot, Plus, Minus, Xor;
    XorTwice(Minus(x, z), Rot(z, k));
    XorTwice(x, Rot(z, k));
    AddSub(x, z);
    AddSub(Xor(x, Rot(z, k)), z);
  }

  lemma XorTwice(x: Word, r: Word)
    ensures Xor(Xor(x, r), r) == x
  {
  }

  lemma AddSub(x: Word, z: Word)
    ensures Plus(Minus(x, z), z) == x && Minus(Plus(x, z), z) == x
  {
    hide Plus, Minus;
    PlusMinus(x, z);
    MinusPlus(x, z);
  }

  lemma PlusMinus(x: Word, z: Word)
    ensures Plus(Minus(x, z), z) == x
  {
    PlusRaw(x, z);
    hide Plus;
  }

  lemma PlusRaw(x: Word, z: Word)
    ensures Plus(x - z, z) == x
  {
  }

  lemma MinusPlus(x: Word, z: Word)
    ensures Minus(Plus(x, z), z) == x
  {
    MinusRaw(x, z);
    hide Minus;
  }

  lemma MinusRaw(x: Word, z: Word)
    ensures Minus(x + z, z) == x
  {
  }

  function MixA(s: Abc, k: nat): Abc requires 0 < k < 32 { Abc(Stir(s.a, s.c, k), s.b, Plus(s.c, s.b)) }
  function MixB(s: Abc, k: nat): Abc requires 0 < k < 32 { Abc(Plus(s.a, s.c), Stir(s.b, s.a, k), s.c) }
  function MixC(s: Abc, k: nat): Abc requires 0 < k < 32 { Abc(s.a, Plus(s.b, s.a), Stir(s.c, s.b, k)) }

  function UnmixA(s: Abc, k: nat): Abc requires 0 < k < 32 { var c := Minus(s.c, s.b); Abc(Unstir(s.a, c, k), s.b, c) }
  function UnmixB(s: Abc, k: nat): Abc requires 0 < k < 32 { var a := Minus(s.a, s.c); Abc(a, Unstir(s.b, a, k), s.c) }
  function UnmixC(s: Abc, k: nat): Abc requires 0 < k < 32 { var b := Minus(s.b, s.a); Abc(s.a, b, Unstir(s.c, b, k)) }

  function Mix(s: Abc): Abc {
    MixC(MixB(MixA(MixC(MixB(MixA(s, 4), 6), 8), 16), 19), 4)
  }

  function Unmix(s: Abc): Abc {
    UnmixA(UnmixB(UnmixC(UnmixA(UnmixB(UnmixC(s, 4), 19), 16), 8), 6), 4)
  }

  lemma UnmixStep(s: Abc, k: nat)
    requires 0 < k < 32
    ensures UnmixA(MixA(s, k), k) == s && MixA(UnmixA(s, k), k) == s
    ensures UnmixB(MixB(s, k), k) == s && MixB(UnmixB(s, k), k) == s
    ensures UnmixC(MixC(s, k), k) == s && MixC(UnmixC(s, k), k) == s
  {
    hide Stir, Unstir, Rot, Plus, Minus, Xor;
    AddSub(s.c, s.b);
    AddSub(s.a, s.c);
    AddSub(s.b, s.a);
    UnstirStir(s.a, s.c, k);
    UnstirStir(s.b, s.a, k);
    UnstirStir(s.c, s.b, k);
    UnstirStir(s.a, Minus(s.c, s.b), k);
    UnstirStir(s.b, Minus(s.a, s.c), k);
    UnstirStir(s.c, Minus(s.b, s.a), k);
  }

  /** mix loses no information: it is a bijection on triples of words. */
  lemma MixReversible(s: Abc)
    ensures Unmix(Mix(s)) == s && Mix(Unmix(s)) == s
  {
    hide MixA, MixB, MixC, UnmixA, UnmixB, UnmixC;
    var s1 := MixA(s, 4);
    var s2 := MixB(s1, 6);
    var s3 := MixC(s2, 8);
    var s4 := MixA(s3, 16);
    var s5 := MixB(s4, 19);
    UnmixStep(s, 4);
    UnmixStep(s1, 6);
    UnmixStep(s2, 8);
    UnmixStep(s3, 16);
    UnmixStep(s4, 19);
    UnmixStep(s5, 4);
    var t1 := UnmixC(s, 4);
    var t2 := UnmixB(t1, 19);
    var t3 := UnmixA(t2, 16);
    var t4 := UnmixC(t3, 8);
    var t5 := UnmixB(t4, 6);
    UnmixStep(t1, 19);
    UnmixStep(t2, 16);
    UnmixStep(t3, 8);
    UnmixStep(t4, 6);
    UnmixStep(t5, 4);
  }

  /** `x ^= y; x -= rot(y, k);`, one seventh of final. */
  function Fold(x: Word, y: Word, k: nat): Word
    requires 0 < k < 32
  {
    Minus(Xor(x, y), Rot(y, k))
  }

  function Unfold(x: Word, y: Word, k: nat): Word
    requires 0 < k < 32
  {
    Xor(Plus(x, Rot(y, k)), y)
  }

  lemma UnfoldFold(x: Word, y: Word, k: nat)
    requires 0 < k < 32
    ensures Unfold(Fold(x, y, k), y, k) == x && Fold(Unfold(x, y, k), y, k) == x
  {
    hide Rot, Plus, Minus, Xor;
    AddSub(Xor(x, y), Rot(y, k));
    AddSub(x, Rot(y, k));
    XorTwice(x, y);
    XorTwice(Plus(x, Rot(y, k)), y);
  }

  function FinalC(s: Abc, k: nat): Abc requires 0 < k < 32 { s.(c := Fold(s.c, s.b, k)) }
  function FinalA(s: Abc, k: nat): Abc requires 0 < k < 32 { s.(a := Fold(s.a, s.c, k)) }
  function FinalB(s: Abc, k: nat): Abc requires 0 < k < 32 { s.(b := Fold(s.b, s.a, k)) }

  function UnfinalC(s: Abc, k: nat): Abc requires 0 < k < 32 { s.(c := Unfold(s.c, s.b, k)) }
  function UnfinalA(s: Abc, k: nat): Abc requires 0 < k < 32 { s.(a := Unfold(s.a, s.c, k)) }
  function UnfinalB(s: Abc, k: nat): Abc requires 0 < k < 32 { s.(b := Unfold(s.b, s.a, k)) }

  function Final(s: Abc): Abc {
    FinalC(FinalB(FinalA(FinalC(FinalB(FinalA(FinalC(s, 14), 11), 25), 16), 4), 14), 24)
  }

  function Unfinal(s: Abc): Abc {
    UnfinalC(UnfinalA(UnfinalB(UnfinalC(UnfinalA(UnfinalB(UnfinalC(s, 24), 14), 4), 16), 25), 11), 14)
  }

  lemma UnfinalStep(s: Abc, k: nat)
    requires 0 < k < 32
    ensures UnfinalA(FinalA(s, k), k) == s && FinalA(UnfinalA(s, k), k) == s
    ensures UnfinalB(FinalB(s, k), k) == s && FinalB(UnfinalB(s, k), k) == s
    ensures UnfinalC(FinalC(s, k), k) == s && FinalC(UnfinalC(s, k), k) == s
  {
    hide Fold, Unfold, Rot, Plus, Minus, Xor;
    UnfoldFold(s.a, s.c, k);
    UnfoldFold(s.b, s.a, k);
    UnfoldFold(s.c, s.b, k);
  }

  /** final is a bijection as well. */
  lemma FinalReversible(s: Abc)
    ensures Unfinal(Final(s)) == s && Final(Unfinal(s)) == s
  {
    hide FinalA, FinalB, FinalC, UnfinalA, UnfinalB, UnfinalC;
    var s1 := FinalC(s, 14);
    var s2 := FinalA(s1, 11);
    var s3 := FinalB(s2, 25);
    var s4 := FinalC(s3, 16);
    var s5 := FinalA(s4, 4);
    var s6 := FinalB(s5, 14);
    UnfinalStep(s, 14);
    UnfinalStep(s1, 11);
    UnfinalStep(s2, 25);
    UnfinalStep(s3, 16);
    UnfinalStep(s4, 4);
    UnfinalStep(s5, 14);
    UnfinalStep(s6, 24);
    var t1 := UnfinalC(s, 24);
    var t2 := UnfinalB(t1, 14);
    var t3 := UnfinalA(t2, 4);
    var t4 := UnfinalC(t3, 16);
    var t5 := UnfinalB(t4, 25);
    var t6 := UnfinalA(t5, 11);
    UnfinalStep(s, 24);
    UnfinalStep(t1, 14);
    UnfinalStep(t2, 4);
    UnfinalStep(t3, 16);
    UnfinalStep(t4, 25);
    UnfinalStep(t5, 11);
    UnfinalStep(t6, 14);
  }

  // ---- what the hash is ------------------------------------------------------------

  type Byte = bv8

  /** Little-endian word of four bytes. */
  function Le(b0: Byte, b1: Byte, b2: Byte, b3: Byte): Word {
    (b0 as Word) + ((b1 as Word) << 8) + ((b2 as Word) << 16) + ((b3 as Word) << 24)
  }

  /** A byte at its place in a word. */
  function Place(b: Byte, p: nat): Word
    requires p < 4
  {
    if p == 0 then b as Word
    else if p == 1 then (b as Word) << 8
    else if p == 2 then (b as Word) << 16
    else (b as Word) << 24
  }

  function Half(b0: Byte, b1: Byte): Word {
    (b0 as Word) + ((b1 as Word) << 8)
  }

  /** A byte of the key, zero beyond its end. */
  function At(key: seq<Byte>, i: nat): Byte {
    if i < |key| then key[i] else 0
  }

  function LeAt(key: seq<Byte>, i: nat): Word {
    Le(At(key, i), At(key, i + 1), At(key, i + 2), At(key, i + 3))
  }

  /** The next twelve bytes of the key join the state. */
  function Absorb(s: Abc, key: seq<Byte>): Abc {
    Abc(Plus(s.a, LeAt(key, 0)), Plus(s.b, LeAt(key, 4)), Plus(s.c, LeAt(key, 8)))
  }

  function Digest(s: Abc, key: seq<Byte>): Word
    decreases |key|
  {
    if |key| > 12 then Digest(Mix(Absorb(s, key)), key[12..])
    else if key == [] then s.c
    else Final(Absorb(s, key)).c
  }

  /** The cast of a length to 32 bits. */
  function LowWord(length: nat): Word {
    (length % 0x1_0000_0000) as Word
  }

  /** 0xdeadbeef plus the length, modulo 2^32. */
  function Start(length: nat): Abc {
    var x := Plus(0xdeadbeef, LowWord(length));
    Abc(x, x, x)
  }

  function Hash(key: seq<Byte>): Word {
    Digest(Start(|key|), key)
  }

  lemma DigestMore(s: Abc, key: seq<Byte>)
    requires |key| > 12
    ensures Digest(s, key) == Digest(Mix(Absorb(s, key)), key[12..])
  {
  }

  lemma DigestLast(s: Abc, key: seq<Byte>)
    requires |key| <= 12
    ensures Digest(s, key) == if key == [] then s.c else Final(Absorb(s, key)).c
  {
  }

  // ---- reading by words, half words and bytes --------------------------------------

  /** A 32-bit read, and a 16-bit read, at byte offset `i` of memory. */
  function Read32(mem: seq<Byte>, i: nat): Word
    requires i + 4 <= |mem|
  {
    Le(mem[i], mem[i + 1], mem[i + 2], mem[i + 3])
  }

  function Read16(mem: seq<Byte>, i: nat): Word
    requires i + 2 <= |mem|
  {
    Half(mem[i], mem[i + 1])
  }

  /** A word with only its first `m` bytes kept. */
  function Masked(w: Word, m: nat): Word
    requires 1 <= m <= 4
  {
    if m == 4 then w else if m == 3 then w & 0xffffff else if m == 2 then w & 0xffff else w & 0xff
  }

  lemma Mask3(b0: Byte, b1: Byte, b2: Byte, b3: Byte)
    ensures Masked(Le(b0, b1, b2, b3), 3) == Le(b0, b1, b2, 0)
  {
  }

  lemma Mask2(b0: Byte, b1: Byte, b2: Byte, b3: Byte)
    ensures Masked(Le(b0, b1, b2, b3), 2) == Le(b0, b1, 0, 0)
  {
    Mask2Is(Le(b0, b1, b2, b3));
    Mask2Raw(b0, b1, b2, b3);
    hide Masked, Le;
  }

  lemma Mask2Is(w: Word)
    ensures Masked(w, 2) == w & 0xffff
  {
  }

  lemma Mask2Raw(b0: Byte, b1: Byte, b2: Byte, b3: Byte)
    ensures Le(b0, b1, b2, b3) & 0xffff == Le(b0, b1, 0, 0)
  {
  }

  lemma Mask1(b0: Byte, b1: Byte, b2: Byte, b3: Byte)
    ensures Masked(Le(b0, b1, b2, b3), 1) == Le(b0, 0, 0, 0)
  {
  }

  lemma Mask4(w: Word)
    ensures Masked(w, 4) == w
  {
  }

  lemma Halves(b0: Byte, b1: Byte, b2: Byte, b3: Byte)
    ensures Plus(Half(b0, b1), Half(b2, b3) << 16) == Le(b0, b1, b2, b3)
  {
  }

  lemma PlusIs(x: Word, y: Word)
    ensures Plus(x, y) == x + y
  {
  }

  lemma AssocRaw(x: Word, y: Word, z: Word)
    ensures Plus(x + y, z) == Plus(x, y + z)
  {
  }

  lemma PlusAssoc(x: Word, y: Word, z: Word)
    ensures Plus(Plus(x, y), z) == Plus(x, Plus(y, z))
  {
    hide Plus;
    PlusIs(x, y);
    PlusIs(y, z);
    AssocRaw(x, y, z);
  }

  lemma PlusComm(x: Word, y: Word)
    ensures Plus(x, y) == Plus(y, x)
  {
  }

  lemma NoBytes(x: Word)
    ensures Plus(x, Le(0, 0, 0, 0)) == x && Plus(x, 0) == x
  {
  }

  lemma LeSum3(b0: Byte, b1: Byte, b2: Byte, b3: Byte)
    ensures Plus(Le(b0, b1, b2, 0), Place(b3, 3)) == Le(b0, b1, b2, b3)
  {
  }

  lemma LeSum2(b0: Byte, b1: Byte, b2: Byte)
    ensures Plus(Le(b0, b1, 0, 0), Place(b2, 2)) == Le(b0, b1, b2, 0)
  {
  }

  lemma LeSum1(b0: Byte, b1: Byte)
    ensures Plus(Le(b0, 0, 0, 0), Place(b1, 1)) == Le(b0, b1, 0, 0)
  {
  }

  lemma LeSum0(b0: Byte)
    ensures Place(b0, 0) == Le(b0, 0, 0, 0)
  {
  }

  /** Adding the bytes of a word one by one, lowest first. */
  lemma BytesUp(x: Word, b0: Byte, b1: Byte, b2: Byte, b3: Byte)
    ensures Plus(Plus(Plus(Plus(x, Place(b0, 0)), Place(b1, 1)), Place(b2, 2)), Place(b3, 3)) ==
                Plus(x, Le(b0, b1, b2, b3))
  {
    hide Plus, Le, Place;
    LeSum0(b0);
    LeSum1(b0, b1);
    LeSum2(b0, b1, b2);
    LeSum3(b0, b1, b2, b3);
    PlusAssoc(x, Le(b0, 0, 0, 0), Place(b1, 1));
    PlusAssoc(x, Le(b0, b1, 0, 0), Place(b2, 2));
    PlusAssoc(x, Le(b0, b1, b2, 0), Place(b3, 3));
  }

  /** Adding one more low byte after the higher bytes of a word. */
  lemma Below3(x: Word, b0: Byte, b1: Byte, b2: Byte, b3: Byte)
    ensures Plus(x, Place(b3, 3)) == Plus(x, Le(0, 0, 0, b3))
    ensures Plus(Plus(x, Le(0, 0, 0, b3)), Place(b2, 2)) == Plus(x, Le(0, 0, b2, b3))
    ensures Plus(Plus(x, Le(0, 0, b2, b3)), Place(b1, 1)) == Plus(x, Le(0, b1, b2, b3))
    ensures Plus(Plus(x, Le(0, b1, b2, b3)), Place(b0, 0)) == Plus(x, Le(b0, b1, b2, b3))
  {
    hide Plus, Le, Place;
    LeHigh(b3);
    LeDown2(b2, b3);
    LeDown1(b1, b2, b3);
    LeDown0(b0, b1, b2, b3);
    PlusAssoc(x, Le(0, 0, 0, b3), Place(b2, 2));
    PlusAssoc(x, Le(0, 0, b2, b3), Place(b1, 1));
    PlusAssoc(x, Le(0, b1, b2, b3), Place(b0, 0));
  }

  lemma LeHigh(b3: Byte)
    ensures Place(b3, 3) == Le(0, 0, 0, b3)
  {
  }

  lemma LeDown2(b2: Byte, b3: Byte)
    ensures Plus(Le(0, 0, 0, b3), Place(b2, 2)) == Le(0, 0, b2, b3)
  {
  }

  lemma LeDown1(b1: Byte, b2: Byte, b3: Byte)
    ensures Plus(Le(0, 0, b2, b3), Place(b1, 1)) == Le(0, b1, b2, b3)
  {
  }

  lemma LeDown0(b0: Byte, b1: Byte, b2: Byte, b3: Byte)
    ensures Plus(Le(0, b1, b2, b3), Place(b0, 0)) == Le(b0, b1, b2, b3)
  {
  }

  // ---- the three ways of adding up to four bytes to an accumulator -----------------

  /** How many of the four bytes at offset `i` the key of `n` bytes still has. */
  function Rest(n: nat, i: nat): (m: nat)
    requires i < n
    ensures 1 <= m <= 4
  {
    if n - i > 4 then 4 else n - i
  }

  /** A word read, masked to the key's own bytes. */
  function AddWord(x: Word, mem: seq<Byte>, j: nat, m: nat): Word
    requires 1 <= m <= 4 && j + 4 <= |mem|
  {
    Plus(x, Masked(Read32(mem, j), m))
  }

  /** Two half-word reads; an odd last byte is read by itself, and first. */
  function AddHalves(x: Word, mem: seq<Byte>, j: nat, m: nat): Word
    requires 1 <= m <= 4 && j + m <= |mem|
  {
    if m == 4 then Plus(x, Plus(Read16(mem, j), Read16(mem, j + 2) << 16))
    else if m == 3 then Plus(Plus(x, Place(mem[j + 2], 2)), Read16(mem, j))
    else if m == 2 then Plus(x, Read16(mem, j))
    else Plus(x, Place(mem[j], 0))
  }

  /** The bytes one at a time, lowest first, as the loop does. */
  function AddBytesUp(x: Word, mem: seq<Byte>, j: nat): Word
    requires j + 4 <= |mem|
  {
    Plus(Plus(Plus(Plus(x, Place(mem[j], 0)), Place(mem[j + 1], 1)), Place(mem[j + 2], 2)), Place(mem[j + 3], 3))
  }

  /** The bytes one at a time, highest first, as the fall-through cases do. */
  function AddBytesDown(x: Word, mem: seq<Byte>, j: nat, m: nat): Word
    requires 1 <= m <= 4 && j + m <= |mem|
    decreases m
  {
    var x' := Plus(x, Place(mem[j + m - 1], m - 1));
    if m == 1 then x' else AddBytesDown(x', mem, j, m - 1)
  }

  lemma AddWordAdds(x: Word, mem: seq<Byte>, off: nat, n: nat, i: nat)
    requires i < n && off + n <= |mem| && off + i + 4 <= |mem|
    ensures AddWord(x, mem, off + i, Rest(n, i)) == Plus(x, LeAt(mem[off..off + n], i))
  {
    hide Le, Plus, Place, Masked;
    var j := off + i;
    Mask3(mem[j], mem[j + 1], mem[j + 2], mem[j + 3]);
    Mask2(mem[j], mem[j + 1], mem[j + 2], mem[j + 3]);
    Mask1(mem[j], mem[j + 1], mem[j + 2], mem[j + 3]);
    Mask4(Read32(mem, j));
  }

  lemma AddHalvesAdds(x: Word, mem: seq<Byte>, off: nat, n: nat, i: nat)
    requires i < n && off + n <= |mem|
    ensures AddHalves(x, mem, off + i, Rest(n, i)) == Plus(x, LeAt(mem[off..off + n], i))
  {
    hide Le, Half, Plus, Place;
    var j := off + i;
    var m := Rest(n, i);
    if m == 4 {
      Halves(mem[j], mem[j + 1], mem[j + 2], mem[j + 3]);
    } else if m == 3 {
      HalfIsLe(mem[j], mem[j + 1]);
      HighThenHalf(x, mem[j], mem[j + 1], mem[j + 2]);
    } else if m == 2 {
      HalfIsLe(mem[j], mem[j + 1]);
    } else {
      LeSum0(mem[j]);
    }
  }

  lemma HalfIsLe(b0: Byte, b1: Byte)
    ensures Half(b0, b1) == Le(b0, b1, 0, 0)
  {
  }

  lemma HighThenHalf(x: Word, b0: Byte, b1: Byte, b2: Byte)
    ensures Plus(Plus(x, Place(b2, 2)), Le(b0, b1, 0, 0)) == Plus(x, Le(b0, b1, b2, 0))
  {
    hide Plus, Le, Place;
    PlusAssoc(x, Place(b2, 2), Le(b0, b1, 0, 0));
    PlusComm(Place(b2, 2), Le(b0, b1, 0, 0));
    LeSum2(b0, b1, b2);
  }

  lemma AddBytesUpAdds(x: Word, mem: seq<Byte>, off: nat, n: nat, i: nat)
    requires i + 4 <= n && off + n <= |mem|
    ensures AddBytesUp(x, mem, off + i) == Plus(x, LeAt(mem[off..off + n], i))
  {
    hide Le, Plus, Place;
    var j := off + i;
    BytesUp(x, mem[j], mem[j + 1], mem[j + 2], mem[j + 3]);
  }

  lemma AddBytesDownAdds(x: Word, mem: seq<Byte>, off: nat, n: nat, i: nat)
    requires i < n && off + n <= |mem|
    ensures AddBytesDown(x, mem, off + i, Rest(n, i)) == Plus(x, LeAt(mem[off..off + n], i))
  {
    hide Le, Plus, Place, AddBytesDown;
    var key := mem[off..off + n];
    NoBytes(x);
    Below3(x, At(key, i), At(key, i + 1), At(key, i + 2), At(key, i + 3));
    Unrolled(x, mem, off + i, Rest(n, i));
  }

  lemma Unrolled(x: Word, mem: seq<Byte>, j: nat, m: nat)
    requires 1 <= m <= 4 && j + m <= |mem|
    decreases m
    ensures m == 1 ==> AddBytesDown(x, mem, j, m) == Plus(x, Place(mem[j], 0))
    ensures m == 2 ==> AddBytesDown(x, mem, j, m) == Plus(Plus(x, Place(mem[j + 1], 1)), Place(mem[j], 0))
    ensures m == 3 ==>
              AddBytesDown(x, mem, j, m) == Plus(Plus(Plus(x, Place(mem[j + 2], 2)), Place(mem[j + 1], 1)),
                  Place(mem[j], 0))
    ensures m == 4 ==>
              AddBytesDown(x, mem, j, m) == Plus(Plus(Plus(Plus(x, Place(mem[j + 3], 3)), Place(mem[j + 2], 2)),
                  Place(mem[j + 1], 1)), Place(mem[j], 0))
  {
  }

  /** Beyond the end of the key nothing is added. */
  lemma PastEnd(key: seq<Byte>, i: nat, x: Word)
    requires i >= |key|
    ensures Plus(x, LeAt(key, i)) == x
  {
  }

  // ---- the three paths -------------------------------------------------------------

  /** Bytes of memory up to the word boundary after `length`. */
  function WordsEnd(length: nat): nat {
    (length + 3) / 4 * 4
  }

  /** Three whole words by each way of reading. */
  lemma WholeBlock(s: Abc, mem: seq<Byte>, off: nat, n: nat)
    requires 12 <= n && off + n <= |mem|
    ensures Abc(AddWord(s.a, mem, off, 4), AddWord(s.b, mem, off + 4, 4), AddWord(s.c, mem, off + 8, 4)) ==
                Absorb(s, mem[off..off + n])
    ensures Abc(AddHalves(s.a, mem, off, 4), AddHalves(s.b, mem, off + 4, 4), AddHalves(s.c, mem, off + 8, 4)) ==
                Absorb(s, mem[off..off + n])
    ensures Abc(AddBytesUp(s.a, mem, off), AddBytesUp(s.b, mem, off + 4), AddBytesUp(s.c, mem, off + 8)) ==
                Absorb(s, mem[off..off + n])
  {
    hide Plus, LeAt, AddWord, AddHalves, AddBytesUp;
    AddWordAdds(s.a, mem, off, n, 0);
    AddWordAdds(s.b, mem, off, n, 4);
    AddWordAdds(s.c, mem, off, n, 8);
    AddHalvesAdds(s.a, mem, off, n, 0);
    AddHalvesAdds(s.b, mem, off, n, 4);
    AddHalvesAdds(s.c, mem, off, n, 8);
    AddBytesUpAdds(s.a, mem, off, n, 0);
    AddBytesUpAdds(s.b, mem, off, n, 4);
    AddBytesUpAdds(s.c, mem, off, n, 8);
  }

  /** The last one to twelve bytes by masked word reads. */
  method TailWords(s: Abc, mem: seq<Byte>, off: nat, n: nat) returns (r: Abc)
    requires 1 <= n <= 12 && off + WordsEnd(n) <= |mem|
    ensures r == Absorb(s, mem[off..off + n])
  {
    hide Plus, LeAt, AddWord;
    ghost var key := mem[off..off + n];
    var a, b, c := s.a, s.b, s.c;
    if n > 8 {
      AddWordAdds(c, mem, off, n, 8);
      c := AddWord(c, mem, off + 8, n - 8);
    } else {
      PastEnd(key, 8, c);
    }
    if n > 4 {
      AddWordAdds(b, mem, off, n, 4);
      b := AddWord(b, mem, off + 4, Rest(n, 4));
    } else {
      PastEnd(key, 4, b);
    }
    AddWordAdds(a, mem, off, n, 0);
    a := AddWord(a, mem, off, Rest(n, 0));
    r := Abc(a, b, c);
  }

  method TailHalves(s: Abc, mem: seq<Byte>, off: nat, n: nat) returns (r: Abc)
    requires 1 <= n <= 12 && off + n <= |mem|
    ensures r == Absorb(s, mem[off..off + n])
  {
    hide Plus, LeAt, AddHalves;
    ghost var key := mem[off..off + n];
    var a, b, c := s.a, s.b, s.c;
    if n > 8 {
      AddHalvesAdds(c, mem, off, n, 8);
      c := AddHalves(c, mem, off + 8, n - 8);
    } else {
      PastEnd(key, 8, c);
    }
    if n > 4 {
      AddHalvesAdds(b, mem, off, n, 4);
      b := AddHalves(b, mem, off + 4, Rest(n, 4));
    } else {
      PastEnd(key, 4, b);
    }
    AddHalvesAdds(a, mem, off, n, 0);
    a := AddHalves(a, mem, off, Rest(n, 0));
    r := Abc(a, b, c);
  }

  method TailBytes(s: Abc, mem: seq<Byte>, off: nat, n: nat) returns (r: Abc)
    requires 1 <= n <= 12 && off + n <= |mem|
    ensures r == Absorb(s, mem[off..off + n])
  {
    hide Plus, LeAt, AddBytesDown;
    ghost var key := mem[off..off + n];
    var a, b, c := s.a, s.b, s.c;
    if n > 8 {
      AddBytesDownAdds(c, mem, off, n, 8);
      c := AddBytesDown(c, mem, off + 8, n - 8);
    } else {
      PastEnd(key, 8, c);
    }
    if n > 4 {
      AddBytesDownAdds(b, mem, off, n, 4);
      b := AddBytesDown(b, mem, off + 4, Rest(n, 4));
    } else {
      PastEnd(key, 4, b);
    }
    AddBytesDownAdds(a, mem, off, n, 0);
    a := AddBytesDown(a, mem, off, Rest(n, 0));
    r := Abc(a, b, c);
  }

  lemma HashIs(key: seq<Byte>)
    ensures Hash(key) == Digest(Start(|key|), key)
  {
  }

  /** The path for keys at addresses divisible by four.  It may read up to three
      bytes of memory beyond the key; they do not matter. */
  method HashWords(mem: seq<Byte>, length: nat) returns (h: Word)
    requires length <= WordsEnd(length) <= |mem|
    ensures h == Hash(mem[..length])
  {
    hide Mix, Final, Absorb, LeAt, Start, Plus, AddWord, AddHalves, AddBytesUp, Digest;
    var s := Start(length);
    var off, n := 0, length;
    assert mem[0..length] == mem[..length];
    HashIs(mem[..length]);
    while n > 12
      invariant off + n == length && off % 4 == 0
      invariant Digest(s, mem[off..off + n]) == Hash(mem[..length])
    {
      DigestMore(s, mem[off..off + n]);
      WholeBlock(s, mem, off, n);
      assert mem[off..off + n][12..] == mem[off + 12..off + n];
      s := Mix(Abc(AddWord(s.a, mem, off, 4), AddWord(s.b, mem, off + 4, 4), AddWord(s.c, mem, off + 8, 4)));
      n, off := n - 12, off + 12;
    }
    DigestLast(s, mem[off..off + n]);
    if n == 0 {
      return s.c;
    }
    s := TailWords(s, mem, off, n);
    h := Final(s).c;
  }

  /** The path for keys at other even addresses. */
  method HashHalves(mem: seq<Byte>, length: nat) returns (h: Word)
    requires length <= |mem|
    ensures h == Hash(mem[..length])
  {
    hide Mix, Final, Absorb, LeAt, Start, Plus, AddWord, AddHalves, AddBytesUp, Digest;
    var s := Start(length);
    var off, n := 0, length;
    assert mem[0..length] == mem[..length];
    HashIs(mem[..length]);
    while n > 12
      invariant off + n == length && off % 4 == 0
      invariant Digest(s, mem[off..off + n]) == Hash(mem[..length])
    {
      DigestMore(s, mem[off..off + n]);
      WholeBlock(s, mem, off, n);
      assert mem[off..off + n][12..] == mem[off + 12..off + n];
      s := Mix(Abc(AddHalves(s.a, mem, off, 4), AddHalves(s.b, mem, off + 4, 4), AddHalves(s.c, mem, off + 8, 4)));
      n, off := n - 12, off + 12;
    }
    DigestLast(s, mem[off..off + n]);
    if n == 0 {
      return s.c;
    }
    s := TailHalves(s, mem, off, n);
    h := Final(s).c;
  }

  /** The path for keys at odd addresses. */
  method HashBytes(mem: seq<Byte>, length: nat) returns (h: Word)
    requires length <= |mem|
    ensures h == Hash(mem[..length])
  {
    hide Mix, Final, Absorb, LeAt, Start, Plus, AddWord, AddHalves, AddBytesUp, Digest;
    var s := Start(length);
    var off, n := 0, length;
    assert mem[0..length] == mem[..length];
    HashIs(mem[..length]);
    while n > 12
      invariant off + n == length && off % 4 == 0
      invariant Digest(s, mem[off..off + n]) == Hash(mem[..length])
    {
      DigestMore(s, mem[off..off + n]);
      WholeBlock(s, mem, off, n);
      assert mem[off..off + n][12..] == mem[off + 12..off + n];
      s := Mix(Abc(AddBytesUp(s.a, mem, off), AddBytesUp(s.b, mem, off + 4), AddBytesUp(s.c, mem, off + 8)));
      n, off := n - 12, off + 12;
    }
    DigestLast(s, mem[off..off + n]);
    if n == 0 {
      return s.c;
    }
    s := TailBytes(s, mem, off, n);
    h := Final(s).c;
  }

  /** The hash of a key is the same wherever the key lies and whatever follows it. */
  method JenkinsHash(addr: nat, mem: seq<Byte>, length: nat) returns (h: Word)
    requires length <= |mem|
    requires addr % 4 == 0 ==> WordsEnd(length) <= |mem|
    ensures h == Hash(mem[..length])
  {
    if addr % 4 == 0 {
      h := HashWords(mem, length);
    } else if addr % 2 == 0 {
      h := HashHalves(mem, length);
    } else {
      h := HashBytes(mem, length);
    }
  }

  // ---- known answers -----------------------------------------------------------------

  lemma Start0()
    ensures Start(0) == Abc(0xdeadbeef, 0xdeadbeef, 0xdeadbeef)
  {
    hide LowWord;
    Low0();
  }

  lemma Low0()
    ensures LowWord(0) == 0
  {
  }

  lemma Start1()
    ensures Start(1) == Abc(0xdeadbef0, 0xdeadbef0, 0xdeadbef0)
  {
    hide LowWord;
    Low1();
  }

  lemma Low1()
    ensures LowWord(1) == 1
  {
  }

  lemma Start7()
    ensures Start(7) == Abc(0xdeadbef6, 0xdeadbef6, 0xdeadbef6)
  {
    hide LowWord;
    Low7();
  }

  lemma Low7()
    ensures LowWord(7) == 7
  {
  }

  lemma Start11()
    ensures Start(11) == Abc(0xdeadbefa, 0xdeadbefa, 0xdeadbefa)
  {
    hide LowWord;
    Low11();
  }

  lemma Low11()
    ensures LowWord(11) == 11
  {
  }

  lemma Start30()
    ensures Start(30) == Abc(0xdeadbf0d, 0xdeadbf0d, 0xdeadbf0d)
  {
    hide LowWord;
    Low30();
  }

  lemma Low30()
    ensures LowWord(30) == 30
  {
  }

  lemma WordsOne()
    ensures Le(97, 0, 0, 0) == 0x00000061
    ensures Le(0, 0, 0, 0) == 0x00000000
    ensures Le(0, 0, 0, 0) == 0x00000000
  {
  }

  lemma AddsOne()
    ensures Plus(0xdeadbef0, 0x00000061) == 0xdeadbf51
    ensures Plus(0xdeadbef0, 0x00000000) == 0xdeadbef0
    ensures Plus(0xdeadbef0, 0x00000000) == 0xdeadbef0
  {
  }

  lemma FinalOne()
    ensures Final(Abc(0xdeadbf51, 0xdeadbef0, 0xdeadbef0)) == Abc(0x9d14722c, 0x582647ac, 0x58d68708)
  {
  }

  lemma AnswerOne()
    ensures Hash([97]) == 0x58d68708       // "a"
  {
    hide Le, Plus, Final, Start;
    var key: seq<Byte> := [97];
    Start1();
    WordsOne();
    AddsOne();
    FinalOne();
    DigestLast(Abc(0xdeadbef0, 0xdeadbef0, 0xdeadbef0), key);
  }

  lemma WordsSeven()
    ensures Le(97, 98, 99, 100) == 0x64636261
    ensures Le(101, 102, 103, 0) == 0x00676665
    ensures Le(0, 0, 0, 0) == 0x00000000
  {
  }

  lemma AddsSeven()
    ensures Plus(0xdeadbef6, 0x64636261) == 0x43112157
    ensures Plus(0xdeadbef6, 0x00676665) == 0xdf15255b
    ensures Plus(0xdeadbef6, 0x00000000) == 0xdeadbef6
  {
  }

  lemma FinalSeven()
    ensures Final(Abc(0x43112157, 0xdf15255b, 0xdeadbef6)) == Abc(0x7bffcbb2, 0x59ac1d9d, 0xb11ad4a5)
  {
  }

  lemma AnswerSeven()
    ensures Hash([97, 98, 99, 100, 101, 102, 103]) == 0xb11ad4a5       // "abcdefg"
  {
    hide Le, Plus, Final, Start;
    var key: seq<Byte> := [97, 98, 99, 100, 101, 102, 103];
    Start7();
    WordsSeven();
    AddsSeven();
    FinalSeven();
    DigestLast(Abc(0xdeadbef6, 0xdeadbef6, 0xdeadbef6), key);
  }

  lemma WordsEleven()
    ensures Le(97, 98, 99, 100) == 0x64636261
    ensures Le(101, 102, 103, 104) == 0x68676665
    ensures Le(105, 106, 107, 0) == 0x006b6a69
  {
  }

  lemma AddsEleven()
    ensures Plus(0xdeadbefa, 0x64636261) == 0x4311215b
    ensures Plus(0xdeadbefa, 0x68676665) == 0x4715255f
    ensures Plus(0xdeadbefa, 0x006b6a69) == 0xdf192963
  {
  }

  lemma FinalEleven()
    ensures Final(Abc(0x4311215b, 0x4715255f, 0xdf192963)) == Abc(0x38d4058e, 0x83d51874, 0x5f61edf8)
  {
  }

  lemma AnswerEleven()
    ensures Hash([97, 98, 99, 100, 101, 102, 103, 104, 105, 106, 107]) == 0x5f61edf8       // "abcdefghijk"
  {
    hide Le, Plus, Final, Start;
    var key: seq<Byte> := [97, 98, 99, 100, 101, 102, 103, 104, 105, 106, 107];
    Start11();
    WordsEleven();
    AddsEleven();
    FinalEleven();
    DigestLast(Abc(0xdeadbefa, 0xdeadbefa, 0xdeadbefa), key);
  }

  lemma AnswerNone()
    ensures Hash([]) == 0xdeadbeef
  {
    Start0();
    hide Start;
  }

  lemma WordsFour1()
    ensures Le(70, 111, 117, 114) == 0x72756f46
    ensures Le(32, 115, 99, 111) == 0x6f637320
    ensures Le(114, 101, 32, 97) == 0x61206572
  {
  }

  lemma WordsFour2()
    ensures Le(110, 100, 32, 115) == 0x7320646e
    ensures Le(101, 118, 101, 110) == 0x6e657665
    ensures Le(32, 121, 101, 97) == 0x61657920
  {
  }

  lemma WordsFour3()
    ensures Le(114, 115, 32, 97) == 0x61207372
    ensures Le(103, 111, 0, 0) == 0x00006f67
    ensures Le(0, 0, 0, 0) == 0x00000000
  {
  }

  lemma AddsFour1()
    ensures Plus(0xdeadbf0d, 0x72756f46) == 0x51232e53
    ensures Plus(0xdeadbf0d, 0x6f637320) == 0x4e11322d
    ensures Plus(0xdeadbf0d, 0x61206572) == 0x3fce247f
  {
  }

  lemma AddsFour2()
    ensures Plus(0xf859ad7a, 0x7320646e) == 0x6b7a11e8
    ensures Plus(0x04bc57ae, 0x6e657665) == 0x7321ce13
    ensures Plus(0x40dddd7e, 0x61657920) == 0xa243569e
  {
  }

  lemma AddsFour3()
    ensures Plus(0x336aded2, 0x61207372) == 0x948b5244
    ensures Plus(0x059f2642, 0x00006f67) == 0x059f95a9
    ensures Plus(0xbd02ebd5, 0x00000000) == 0xbd02ebd5
  {
  }

  lemma MixFour1()
    ensures Mix(Abc(0x51232e53, 0x4e11322d, 0x3fce247f)) == Abc(0xf859ad7a, 0x04bc57ae, 0x40dddd7e)
  {
  }

  lemma MixFour2()
    ensures Mix(Abc(0x6b7a11e8, 0x7321ce13, 0xa243569e)) == Abc(0x336aded2, 0x059f2642, 0xbd02ebd5)
  {
  }

  lemma FinalFour()
    ensures Final(Abc(0x948b5244, 0x059f95a9, 0xbd02ebd5)) == Abc(0x9a837816, 0xce7226e6, 0x17770551)
  {
  }

  function Four1(): seq<Byte> { [70, 111, 117, 114, 32, 115, 99, 111, 114, 101, 32, 97] }
  function Four2(): seq<Byte> { [110, 100, 32, 115, 101, 118, 101, 110, 32, 121, 101, 97] }
  function Four3(): seq<Byte> { [114, 115, 32, 97, 103, 111] }

  /** "Four score and seven years ago": two rounds of mixing and a last block of
      six bytes. */
  lemma AnswerFour()
    ensures Hash(Four1() + Four2() + Four3()) == 0x17770551
  {
    hide Le, Plus, Final, Mix, Start, Digest;
    var key := Four1() + Four2() + Four3();
    Start30();
    WordsFour1();
    WordsFour2();
    WordsFour3();
    AddsFour1();
    AddsFour2();
    AddsFour3();
    MixFour1();
    MixFour2();
    FinalFour();
    assert key[12..] == Four2() + Four3() && key[12..][12..] == Four3();
    DigestMore(Abc(0xdeadbf0d, 0xdeadbf0d, 0xdeadbf0d), key);
    DigestMore(Abc(0xf859ad7a, 0x04bc57ae, 0x40dddd7e), key[12..]);
    DigestLast(Abc(0x336aded2, 0x059f2642, 0xbd02ebd5), Four3());
  }

  /** The same answers wherever the key lies, and whatever follows it. */
  method KnownAnswers(addr: nat, mem: seq<Byte>, length: nat) returns (h: Word)
    requires length <= |mem| && (addr % 4 == 0 ==> WordsEnd(length) <= |mem|)
    ensures mem[..length] == [] ==> h == 0xdeadbeef
    ensures mem[..length] == [97] ==> h == 0x58d68708
    ensures mem[..length] == [97, 98, 99, 100, 101, 102, 103] ==> h == 0xb11ad4a5
    ensures mem[..length] == [97, 98, 99, 100, 101, 102, 103, 104, 105, 106, 107] ==> h == 0x5f61edf8
    ensures mem[..length] == Four1() + Four2() + Four3() ==> h == 0x17770551
  {
    hide Hash;
    AnswerNone();
    AnswerOne();
    AnswerSeven();
    AnswerEleven();
    AnswerFour();
    h := JenkinsHash(addr, mem, length);
  }
}
