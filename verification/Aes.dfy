/**
 * The table-driven AES of crypto/aes.c on 32-bit words, shown to compute the
 * cipher of FIPS 197.  A lookup table is a function of its index, defined by
 * what crypto/aes_tab.h documents the table to hold.
 */
module Aes {
  import opened AesCipher

  type Word32 = bv32

  /** Big-endian: the column's first byte is the word's top byte. */
  function Pack(c: Col): Word32 {
    (c.b0 as Word32 << 24) | (c.b1 as Word32 << 16) | (c.b2 as Word32 << 8) | c.b3 as Word32
  }

  function Byte3(w: Word32): Byte { ((w >> 24) & 255) as Byte }
  function Byte2(w: Word32): Byte { ((w >> 16) & 255) as Byte }
  function Byte1(w: Word32): Byte { ((w >> 8) & 255) as Byte }
  function Byte0(w: Word32): Byte { (w & 255) as Byte }

  function Xor(a: Word32, b: Word32): Word32 { a ^ b }

  lemma Unpack(c: Col)
    ensures Byte3(Pack(c)) == c.b0 && Byte2(Pack(c)) == c.b1 && Byte1(Pack(c)) == c.b2 && Byte0(Pack(c)) == c.b3
  {
  }

  lemma PackXor(a: Col, b: Col)
    ensures Xor(Pack(a), Pack(b)) == Pack(Add(a, b))
  {
  }

  // ----- The tables -----

  function Te0(box: Box, x: Byte): Word32 { var s := box.s(x); Pack(Col(X2(s), s, s, X3(s))) }
  function Te1(box: Box, x: Byte): Word32 { var s := box.s(x); Pack(Col(X3(s), X2(s), s, s)) }
  function Te2(box: Box, x: Byte): Word32 { var s := box.s(x); Pack(Col(s, X3(s), X2(s), s)) }
  function Te3(box: Box, x: Byte): Word32 { var s := box.s(x); Pack(Col(s, s, X3(s), X2(s))) }

  function TeTop(box: Box, x: Byte): Word32 { Pack(Col(box.s(x), 0, 0, 0)) }
  function TeSecond(box: Box, x: Byte): Word32 { Pack(Col(0, box.s(x), 0, 0)) }
  function TeThird(box: Box, x: Byte): Word32 { Pack(Col(0, 0, box.s(x), 0)) }
  function TeBottom(box: Box, x: Byte): Word32 { Pack(Col(0, 0, 0, box.s(x))) }

  /** The inverse-key tables, indexed by the byte itself. */
  function Tks0(x: Byte): Word32 { Pack(Col(XE(x), X9(x), XD(x), XB(x))) }
  function Tks1(x: Byte): Word32 { Pack(Col(XB(x), XE(x), X9(x), XD(x))) }
  function Tks2(x: Byte): Word32 { Pack(Col(XD(x), XB(x), XE(x), X9(x))) }
  function Tks3(x: Byte): Word32 { Pack(Col(X9(x), XD(x), XB(x), XE(x))) }

  function Td0(box: Box, x: Byte): Word32 { Tks0(box.si(x)) }
  function Td1(box: Box, x: Byte): Word32 { Tks1(box.si(x)) }
  function Td2(box: Box, x: Byte): Word32 { Tks2(box.si(x)) }
  function Td3(box: Box, x: Byte): Word32 { Tks3(box.si(x)) }
  function Td4(box: Box, x: Byte): Word32 { var s := box.si(x); Pack(Col(s, s, s, s)) }

  const RCON: seq<Word32> := [
    0x01000000, 0x02000000, 0x04000000, 0x08000000, 0x10000000,
    0x20000000, 0x40000000, 0x80000000, 0x1b000000, 0x36000000]

  // ----- One output word of a round -----

  function Xor5(a: Word32, b: Word32, c: Word32, d: Word32, k: Word32): Word32 {
    Xor(Xor(Xor(Xor(a, b), c), d), k)
  }

  function EncWord(box: Box, a: Word32, b: Word32, c: Word32, d: Word32, k: Word32): Word32 {
    Xor5(Te0(box, Byte3(a)), Te1(box, Byte2(b)), Te2(box, Byte1(c)), Te3(box, Byte0(d)), k)
  }

  function LastEncWord(box: Box, a: Word32, b: Word32, c: Word32, d: Word32, k: Word32): Word32 {
    Xor5(TeTop(box, Byte3(a)), TeSecond(box, Byte2(b)), TeThird(box, Byte1(c)), TeBottom(box, Byte0(d)), k)
  }

  function DecWord(box: Box, a: Word32, b: Word32, c: Word32, d: Word32, k: Word32): Word32 {
    Xor5(Td0(box, Byte3(a)), Td1(box, Byte2(b)), Td2(box, Byte1(c)), Td3(box, Byte0(d)), k)
  }

  function LastDecWord(box: Box, a: Word32, b: Word32, c: Word32, d: Word32, k: Word32): Word32 {
    Xor5(Td4(box, Byte3(a)) & 0xff000000, Td4(box, Byte2(b)) & 0x00ff0000,
         Td4(box, Byte1(c)) & 0x0000ff00, Td4(box, Byte0(d)) & 0x000000ff, k)
  }

  /** InvMixColumn of a key word. */
  function KeyWord(w: Word32): Word32 {
    Xor(Xor(Xor(Tks0(Byte3(w)), Tks1(Byte2(w))), Tks2(Byte1(w))), Tks3(Byte0(w)))
  }

  function SumCols(p: Col, q: Col, r: Col, s: Col): Col {
    Col(Sum(p.b0, q.b0, r.b0, s.b0), Sum(p.b1, q.b1, r.b1, s.b1), Sum(p.b2, q.b2, r.b2, s.b2), Sum(p.b3, q.b3, r.b3, s.b3))
  }

  lemma PackXor4(p: Col, q: Col, r: Col, s: Col)
    ensures Xor(Xor(Xor(Pack(p), Pack(q)), Pack(r)), Pack(s)) == Pack(SumCols(p, q, r, s))
  {
    hide Pack, Xor, Plus;
    PackXor(p, q);
    PackXor(Add(p, q), r);
    PackXor(Add(Add(p, q), r), s);
    PlusAssociates(Plus(p.b0, q.b0), r.b0, s.b0);
    PlusAssociates(Plus(p.b1, q.b1), r.b1, s.b1);
    PlusAssociates(Plus(p.b2, q.b2), r.b2, s.b2);
    PlusAssociates(Plus(p.b3, q.b3), r.b3, s.b3);
  }

  lemma SumOfOne(x: Byte)
    ensures Sum(x, 0, 0, 0) == x && Sum(0, x, 0, 0) == x && Sum(0, 0, x, 0) == x && Sum(0, 0, 0, x) == x
  {
    hide Plus;
    PlusLaws(x, 0);
    PlusLaws(0, 0);
  }

  lemma EncWordPacks(box: Box, a: Col, b: Col, c: Col, d: Col, k: Col)
    ensures EncWord(box, Pack(a), Pack(b), Pack(c), Pack(d), Pack(k)) ==
            Pack(Add(Mix(Col(box.s(a.b0), box.s(b.b1), box.s(c.b2), box.s(d.b3))), k))
  {
    hide Pack, Xor, Sum, X2, X3, Add, Byte0, Byte1, Byte2, Byte3;
    Unpack(a);
    Unpack(b);
    Unpack(c);
    Unpack(d);
    var (x, y, z, w) := (box.s(a.b0), box.s(b.b1), box.s(c.b2), box.s(d.b3));
    var (p, q, r, s) := (Col(X2(x), x, x, X3(x)), Col(X3(y), X2(y), y, y), Col(z, X3(z), X2(z), z), Col(w, w, X3(w), X2(w)));
    PackXor4(p, q, r, s);
    assert SumCols(p, q, r, s) == Mix(Col(x, y, z, w));
    PackXor(SumCols(p, q, r, s), k);
  }

  lemma SingleBytes(x: Byte, y: Byte, z: Byte, w: Byte)
    ensures SumCols(Col(x, 0, 0, 0), Col(0, y, 0, 0), Col(0, 0, z, 0), Col(0, 0, 0, w)) == Col(x, y, z, w)
  {
    hide Sum;
    SumOfOne(x);
    SumOfOne(y);
    SumOfOne(z);
    SumOfOne(w);
  }

  lemma LastEncWordPacks(box: Box, a: Col, b: Col, c: Col, d: Col, k: Col)
    ensures LastEncWord(box, Pack(a), Pack(b), Pack(c), Pack(d), Pack(k)) ==
            Pack(Add(Col(box.s(a.b0), box.s(b.b1), box.s(c.b2), box.s(d.b3)), k))
  {
    hide Pack, Xor, SumCols, Add, Byte0, Byte1, Byte2, Byte3;
    Unpack(a);
    Unpack(b);
    Unpack(c);
    Unpack(d);
    var (x, y, z, w) := (box.s(a.b0), box.s(b.b1), box.s(c.b2), box.s(d.b3));
    PackXor4(Col(x, 0, 0, 0), Col(0, y, 0, 0), Col(0, 0, z, 0), Col(0, 0, 0, w));
    SingleBytes(x, y, z, w);
    PackXor(Col(x, y, z, w), k);
  }

  lemma InvMixWord(x: Byte, y: Byte, z: Byte, w: Byte)
    ensures Xor(Xor(Xor(Tks0(x), Tks1(y)), Tks2(z)), Tks3(w)) == Pack(InvMix(Col(x, y, z, w)))
  {
    hide Pack, Xor, Sum, X9, XB, XD, XE;
    var (p, q) := (Col(XE(x), X9(x), XD(x), XB(x)), Col(XB(y), XE(y), X9(y), XD(y)));
    var (r, s) := (Col(XD(z), XB(z), XE(z), X9(z)), Col(X9(w), XD(w), XB(w), XE(w)));
    PackXor4(p, q, r, s);
    assert SumCols(p, q, r, s) == InvMix(Col(x, y, z, w));
  }

  lemma DecWordPacks(box: Box, a: Col, b: Col, c: Col, d: Col, k: Col)
    ensures DecWord(box, Pack(a), Pack(b), Pack(c), Pack(d), Pack(k)) ==
            Pack(Add(InvMix(Col(box.si(a.b0), box.si(b.b1), box.si(c.b2), box.si(d.b3))), k))
  {
    hide Pack, Xor, Add, InvMix, Tks0, Tks1, Tks2, Tks3, Byte0, Byte1, Byte2, Byte3;
    Unpack(a);
    Unpack(b);
    Unpack(c);
    Unpack(d);
    var (x, y, z, w) := (box.si(a.b0), box.si(b.b1), box.si(c.b2), box.si(d.b3));
    InvMixWord(x, y, z, w);
    PackXor(InvMix(Col(x, y, z, w)), k);
  }

  lemma KeyWordPacks(c: Col)
    ensures KeyWord(Pack(c)) == Pack(InvMix(c))
  {
    hide Pack, Xor, InvMix, Tks0, Tks1, Tks2, Tks3, Byte0, Byte1, Byte2, Byte3;
    Unpack(c);
    InvMixWord(c.b0, c.b1, c.b2, c.b3);
  }

  lemma Masks(s: Byte)
    ensures Pack(Col(s, s, s, s)) & 0xff000000 == Pack(Col(s, 0, 0, 0))
    ensures Pack(Col(s, s, s, s)) & 0x00ff0000 == Pack(Col(0, s, 0, 0))
    ensures Pack(Col(s, s, s, s)) & 0x0000ff00 == Pack(Col(0, 0, s, 0))
    ensures Pack(Col(s, s, s, s)) & 0x000000ff == Pack(Col(0, 0, 0, s))
  {
  }

  lemma LastDecWordPacks(box: Box, a: Col, b: Col, c: Col, d: Col, k: Col)
    ensures LastDecWord(box, Pack(a), Pack(b), Pack(c), Pack(d), Pack(k)) ==
            Pack(Add(Col(box.si(a.b0), box.si(b.b1), box.si(c.b2), box.si(d.b3)), k))
  {
    hide Pack, Xor, SumCols, Add, Byte0, Byte1, Byte2, Byte3;
    Unpack(a);
    Unpack(b);
    Unpack(c);
    Unpack(d);
    var (x, y, z, w) := (box.si(a.b0), box.si(b.b1), box.si(c.b2), box.si(d.b3));
    Masks(x);
    Masks(y);
    Masks(z);
    Masks(w);
    PackXor4(Col(x, 0, 0, 0), Col(0, y, 0, 0), Col(0, 0, z, 0), Col(0, 0, 0, w));
    SingleBytes(x, y, z, w);
    PackXor(Col(x, y, z, w), k);
  }

  // ----- Key schedule words -----

  /** SubWord of RotWord, with the tables of the last round. */
  function SetupMix(box: Box, w: Word32): Word32 {
    Xor(Xor(Xor(TeTop(box, Byte2(w)), TeSecond(box, Byte1(w))), TeThird(box, Byte0(w))), TeBottom(box, Byte3(w)))
  }

  function RotateRight8(w: Word32): Word32 { (w >> 8) | (w << 24) }

  lemma SetupMixPacks(box: Box, c: Col)
    ensures SetupMix(box, Pack(c)) == Pack(SubWord(box.s, RotWord(c)))
  {
    hide Pack, Xor, SumCols, Byte0, Byte1, Byte2, Byte3;
    Unpack(c);
    var (x, y, z, w) := (box.s(c.b1), box.s(c.b2), box.s(c.b3), box.s(c.b0));
    PackXor4(Col(x, 0, 0, 0), Col(0, y, 0, 0), Col(0, 0, z, 0), Col(0, 0, 0, w));
    SingleBytes(x, y, z, w);
  }

  lemma RotatePacks(c: Col)
    ensures RotateRight8(Pack(c)) == Pack(Col(c.b3, c.b0, c.b1, c.b2))
  {
  }

  lemma SetupMixRotated(box: Box, c: Col)
    ensures SetupMix(box, RotateRight8(Pack(c))) == Pack(SubWord(box.s, c))
  {
    hide Pack, SetupMix, RotateRight8;
    RotatePacks(c);
    SetupMixPacks(box, Col(c.b3, c.b0, c.b1, c.b2));
  }

  lemma RconTable(i: nat)
    requires i < 10
    ensures RCON[i] == Pack(Col(Rcon(i + 1), 0, 0, 0))
  {
    assert Rcon(2) == 2;
    assert Rcon(3) == 4;
    assert Rcon(4) == 8;
    assert Rcon(5) == 16;
    assert Rcon(6) == 32;
    assert Rcon(7) == 64;
    assert Rcon(8) == 128;
    assert Rcon(9) == 0x1b;
    assert Rcon(10) == 0x36;
  }

  /** Word `j` of the schedule in terms of earlier words, as the code computes it. */
  lemma NextWord(box: Box, key: seq<Col>, j: nat)
    requires |key| in {4, 6, 8} && |key| <= j < 4 * (|key| + 7)
    ensures var (back, last) := (Pack(Word(box, key, j - |key|)), Pack(Word(box, key, j - 1)));
      Pack(Word(box, key, j)) ==
        if j % |key| == 0 then Xor(Xor(back, SetupMix(box, last)), RCON[j / |key| - 1])
        else if |key| == 8 && j % |key| == 4 then Xor(back, SetupMix(box, RotateRight8(last)))
        else Xor(back, last)
  {
    hide Pack, Xor, Add, SetupMix, RotateRight8, SubWord, RotWord;
    var (back, last) := (Word(box, key, j - |key|), Word(box, key, j - 1));
    PackXor(back, KeyTemp(box, |key|, j, last));
    if j % |key| == 0 {
      SetupMixPacks(box, last);
      var c := Col(Rcon(j / |key|), 0, 0, 0);
      RconTable(j / |key| - 1);
      PackXor(SubWord(box.s, RotWord(last)), c);
      AddAssociates(back, SubWord(box.s, RotWord(last)), c);
      PackXor(back, SubWord(box.s, RotWord(last)));
      PackXor(Add(back, SubWord(box.s, RotWord(last))), c);
    } else if |key| == 8 && j % |key| == 4 {
      SetupMixRotated(box, last);
    }
  }

  lemma AddAssociates(a: Col, b: Col, c: Col)
    ensures Add(a, Add(b, c)) == Add(Add(a, b), c)
  {
    hide Plus;
    PlusAssociates(a.b0, b.b0, c.b0);
    PlusAssociates(a.b1, b.b1, c.b1);
    PlusAssociates(a.b2, b.b2, c.b2);
    PlusAssociates(a.b3, b.b3, c.b3);
  }

  /** The first `n` words of `k` are the schedule's. */
  ghost predicate Scheduled(box: Box, key: seq<Col>, k: seq<Word32>, n: nat)
    requires |key| in {4, 6, 8}
  {
    n <= |k| && forall i :: 0 <= i < n ==> k[i] == Pack(Word(box, key, i))
  }

  lemma ScheduledMore(box: Box, key: seq<Col>, k: seq<Word32>, l: seq<Word32>, n: nat)
    requires |key| in {4, 6, 8} && Scheduled(box, key, k, n) && |l| == |k| && n < |k|
    requires l == k[n := Pack(Word(box, key, n))]
    ensures Scheduled(box, key, l, n + 1)
  {
  }

  function KeyCols(key: seq<Byte>): (cols: seq<Col>)
    ensures |cols| == |key| / 4
  {
    seq(|key| / 4, i requires 0 <= i < |key| / 4 => Col(key[4 * i], key[4 * i + 1], key[4 * i + 2], key[4 * i + 3]))
  }

  // ----- Round keys in memory -----

  ghost predicate KeyAt(k: seq<Word32>, r: nat, key: State) {
    && 4 * r + 4 <= |k|
    && k[4 * r] == Pack(key.c0) && k[4 * r + 1] == Pack(key.c1)
    && k[4 * r + 2] == Pack(key.c2) && k[4 * r + 3] == Pack(key.c3)
  }

  ghost predicate Holds(k: seq<Word32>, keys: seq<State>, n: nat)
    requires n <= |keys|
  {
    forall r: nat :: r < n ==> KeyAt(k, r, keys[r])
  }

  lemma ScheduleHeld(box: Box, key: seq<Col>, k: seq<Word32>)
    requires |key| in {4, 6, 8} && Scheduled(box, key, k, 4 * (|key| + 7))
    ensures Holds(k, KeySchedule(box, key), |key| + 7)
  {
    hide Word, Pack;
    var keys := KeySchedule(box, key);
    forall r: nat | r < |key| + 7 ensures KeyAt(k, r, keys[r]) {
      assert keys[r] == RoundKey(box, key, r);
    }
  }

  function ToState(b: seq<Byte>): State
    requires |b| == 16
  {
    State(Col(b[0], b[1], b[2], b[3]), Col(b[4], b[5], b[6], b[7]),
          Col(b[8], b[9], b[10], b[11]), Col(b[12], b[13], b[14], b[15]))
  }

  function FromState(s: State): (b: seq<Byte>)
    ensures |b| == 16 && ToState(b) == s
  {
    [s.c0.b0, s.c0.b1, s.c0.b2, s.c0.b3, s.c1.b0, s.c1.b1, s.c1.b2, s.c1.b3,
     s.c2.b0, s.c2.b1, s.c2.b2, s.c2.b3, s.c3.b0, s.c3.b1, s.c3.b2, s.c3.b3]
  }

  lemma EncRound(box: Box, a: State, k: State)
    ensures var next := AddKey(MixColumns(ShiftRows(SubBytes(box.s, a))), k);
      && EncWord(box, Pack(a.c0), Pack(a.c1), Pack(a.c2), Pack(a.c3), Pack(k.c0)) == Pack(next.c0)
      && EncWord(box, Pack(a.c1), Pack(a.c2), Pack(a.c3), Pack(a.c0), Pack(k.c1)) == Pack(next.c1)
      && EncWord(box, Pack(a.c2), Pack(a.c3), Pack(a.c0), Pack(a.c1), Pack(k.c2)) == Pack(next.c2)
      && EncWord(box, Pack(a.c3), Pack(a.c0), Pack(a.c1), Pack(a.c2), Pack(k.c3)) == Pack(next.c3)
  {
    hide EncWord, Pack, Mix, Add;
    EncWordPacks(box, a.c0, a.c1, a.c2, a.c3, k.c0);
    EncWordPacks(box, a.c1, a.c2, a.c3, a.c0, k.c1);
    EncWordPacks(box, a.c2, a.c3, a.c0, a.c1, k.c2);
    EncWordPacks(box, a.c3, a.c0, a.c1, a.c2, k.c3);
  }

  lemma LastEncRound(box: Box, a: State, k: State)
    ensures var next := AddKey(ShiftRows(SubBytes(box.s, a)), k);
      && LastEncWord(box, Pack(a.c0), Pack(a.c1), Pack(a.c2), Pack(a.c3), Pack(k.c0)) == Pack(next.c0)
      && LastEncWord(box, Pack(a.c1), Pack(a.c2), Pack(a.c3), Pack(a.c0), Pack(k.c1)) == Pack(next.c1)
      && LastEncWord(box, Pack(a.c2), Pack(a.c3), Pack(a.c0), Pack(a.c1), Pack(k.c2)) == Pack(next.c2)
      && LastEncWord(box, Pack(a.c3), Pack(a.c0), Pack(a.c1), Pack(a.c2), Pack(k.c3)) == Pack(next.c3)
  {
    hide LastEncWord, Pack, Add;
    LastEncWordPacks(box, a.c0, a.c1, a.c2, a.c3, k.c0);
    LastEncWordPacks(box, a.c1, a.c2, a.c3, a.c0, k.c1);
    LastEncWordPacks(box, a.c2, a.c3, a.c0, a.c1, k.c2);
    LastEncWordPacks(box, a.c3, a.c0, a.c1, a.c2, k.c3);
  }

  lemma DecRound(box: Box, a: State, k: State)
    ensures var next := AddKey(InvMixColumns(InvShiftRows(SubBytes(box.si, a))), k);
      && DecWord(box, Pack(a.c0), Pack(a.c3), Pack(a.c2), Pack(a.c1), Pack(k.c0)) == Pack(next.c0)
      && DecWord(box, Pack(a.c1), Pack(a.c0), Pack(a.c3), Pack(a.c2), Pack(k.c1)) == Pack(next.c1)
      && DecWord(box, Pack(a.c2), Pack(a.c1), Pack(a.c0), Pack(a.c3), Pack(k.c2)) == Pack(next.c2)
      && DecWord(box, Pack(a.c3), Pack(a.c2), Pack(a.c1), Pack(a.c0), Pack(k.c3)) == Pack(next.c3)
  {
    hide DecWord, Pack, InvMix, Add;
    DecWordPacks(box, a.c0, a.c3, a.c2, a.c1, k.c0);
    DecWordPacks(box, a.c1, a.c0, a.c3, a.c2, k.c1);
    DecWordPacks(box, a.c2, a.c1, a.c0, a.c3, k.c2);
    DecWordPacks(box, a.c3, a.c2, a.c1, a.c0, k.c3);
  }

  lemma LastDecRound(box: Box, a: State, k: State)
    ensures var next := AddKey(InvShiftRows(SubBytes(box.si, a)), k);
      && LastDecWord(box, Pack(a.c0), Pack(a.c3), Pack(a.c2), Pack(a.c1), Pack(k.c0)) == Pack(next.c0)
      && LastDecWord(box, Pack(a.c1), Pack(a.c0), Pack(a.c3), Pack(a.c2), Pack(k.c1)) == Pack(next.c1)
      && LastDecWord(box, Pack(a.c2), Pack(a.c1), Pack(a.c0), Pack(a.c3), Pack(k.c2)) == Pack(next.c2)
      && LastDecWord(box, Pack(a.c3), Pack(a.c2), Pack(a.c1), Pack(a.c0), Pack(k.c3)) == Pack(next.c3)
  {
    hide LastDecWord, Pack, Add;
    LastDecWordPacks(box, a.c0, a.c3, a.c2, a.c1, k.c0);
    LastDecWordPacks(box, a.c1, a.c0, a.c3, a.c2, k.c1);
    LastDecWordPacks(box, a.c2, a.c1, a.c0, a.c3, k.c2);
    LastDecWordPacks(box, a.c3, a.c2, a.c1, a.c0, k.c3);
  }

  /** Big-endian load of four bytes. */
  method Load(a: array<Byte>, i: nat) returns (w: Word32)
    requires i + 4 <= a.Length
    ensures w == Pack(Col(a[i], a[i + 1], a[i + 2], a[i + 3]))
  {
    w := Pack(Col(a[i], a[i + 1], a[i + 2], a[i + 3]));
  }

  /** Big-endian store of four bytes. */
  method Store(w: Word32, ghost c: Col, a: array<Byte>, i: nat)
    requires i + 4 <= a.Length && w == Pack(c)
    modifies a
    ensures a[i] == c.b0 && a[i + 1] == c.b1 && a[i + 2] == c.b2 && a[i + 3] == c.b3
    ensures forall j :: 0 <= j < a.Length && !(i <= j < i + 4) ==> a[j] == old(a[j])
  {
    Unpack(c);
    hide Pack, Byte0, Byte1, Byte2, Byte3;
    a[i], a[i + 1], a[i + 2], a[i + 3] := Byte3(w), Byte2(w), Byte1(w), Byte0(w);
  }

  ghost predicate IsPacked(w0: Word32, w1: Word32, w2: Word32, w3: Word32, a: State) {
    w0 == Pack(a.c0) && w1 == Pack(a.c1) && w2 == Pack(a.c2) && w3 == Pack(a.c3)
  }

  /** Loads a block and adds the first round key. */
  method Begin(inp: array<Byte>, k: array<Word32>, ghost key: State) returns (s0: Word32, s1: Word32, s2: Word32, s3: Word32)
    requires inp.Length >= 16 && KeyAt(k[..], 0, key)
    ensures IsPacked(s0, s1, s2, s3, AddKey(ToState(inp[..16]), key))
  {
    hide Pack, Xor, Add;
    ghost var a := ToState(inp[..16]);
    s0 := Load(inp, 0);
    s1 := Load(inp, 4);
    s2 := Load(inp, 8);
    s3 := Load(inp, 12);
    PackXor(a.c0, key.c0);
    PackXor(a.c1, key.c1);
    PackXor(a.c2, key.c2);
    PackXor(a.c3, key.c3);
    s0, s1, s2, s3 := Xor(s0, k[0]), Xor(s1, k[1]), Xor(s2, k[2]), Xor(s3, k[3]);
  }

  /** Stores a block. */
  method Finish(s0: Word32, s1: Word32, s2: Word32, s3: Word32, ghost a: State, out: array<Byte>)
    requires out.Length >= 16 && IsPacked(s0, s1, s2, s3, a)
    modifies out
    ensures out[..16] == FromState(a) && out[16..] == old(out[16..])
  {
    hide Pack;
    Store(s0, a.c0, out, 0);
    Store(s1, a.c1, out, 4);
    Store(s2, a.c2, out, 8);
    Store(s3, a.c3, out, 12);
  }

  function Keys(box: Box, key: seq<Byte>): (keys: seq<State>)
    requires |key| in {16, 24, 32}
    ensures |keys| == |key| / 4 + 7
  {
    KeySchedule(box, KeyCols(key))
  }

  function EncryptedBlock(box: Box, key: seq<Byte>, block: seq<Byte>): (r: seq<Byte>)
    requires |key| in {16, 24, 32} && |block| == 16
    ensures |r| == 16
  {
    FromState(Cipher(box, Keys(box, key), ToState(block)))
  }

  function DecryptedBlock(box: Box, key: seq<Byte>, block: seq<Byte>): (r: seq<Byte>)
    requires |key| in {16, 24, 32} && |block| == 16
    ensures |r| == 16
  {
    FromState(EqInvCipher(box, DecryptionKeys(Keys(box, key)), ToState(block)))
  }

  class AesKey {
    const box: Box
    const eK: array<Word32>
    const dK: array<Word32>
    var nr: nat

    constructor (box: Box)
      ensures this.box == box && fresh(eK) && fresh(dK) && eK != dK && eK.Length == 60 && dK.Length == 60
    {
      this.box := box;
      eK := new Word32[60];
      dK := new Word32[60];
      nr := 0;
    }

    /** The first word of a turn of the key: rotated, substituted, and with a round constant. */
    method FirstWord(ghost key: seq<Col>, nk: nat, n: nat, i: nat)
      requires |key| == nk && nk in {4, 6, 8} && eK.Length == 60 && n == nk * (i + 1) && n < 4 * (nk + 7)
      requires Scheduled(box, key, eK[..], n)
      modifies eK
      ensures Scheduled(box, key, eK[..], n + 1)
    {
      hide Word, Pack, Xor, SetupMix;
      NextWord(box, key, n);
      TurnIndex(nk, n, i);
      ghost var before := eK[..];
      eK[n] := Xor(Xor(eK[n - nk], SetupMix(box, eK[n - 1])), RCON[i]);
      ScheduledMore(box, key, before, eK[..], n);
    }

    /** The middle word of a turn of a 256-bit key: substituted without rotation. */
    method MiddleWord(ghost key: seq<Col>, n: nat)
      requires |key| == 8 && eK.Length == 60 && n % 8 == 4 && 8 <= n < 60
      requires Scheduled(box, key, eK[..], n)
      modifies eK
      ensures Scheduled(box, key, eK[..], n + 1)
    {
      hide Word, Pack, Xor, SetupMix;
      NextWord(box, key, n);
      ghost var before := eK[..];
      eK[n] := Xor(eK[n - 8], SetupMix(box, RotateRight8(eK[n - 1])));
      ScheduledMore(box, key, before, eK[..], n);
    }

    /** Any other word. */
    method PlainWord(ghost key: seq<Col>, nk: nat, n: nat)
      requires |key| == nk && nk in {4, 6, 8} && eK.Length == 60 && nk <= n < 4 * (nk + 7)
      requires n % nk != 0 && !(nk == 8 && n % nk == 4)
      requires Scheduled(box, key, eK[..], n)
      modifies eK
      ensures Scheduled(box, key, eK[..], n + 1)
    {
      hide Word, Pack, Xor, SetupMix;
      NextWord(box, key, n);
      ghost var before := eK[..];
      eK[n] := Xor(eK[n - nk], eK[n - 1]);
      ScheduledMore(box, key, before, eK[..], n);
    }

    method Expand128(ghost key: seq<Col>)
      requires |key| == 4 && eK.Length == 60 && Scheduled(box, key, eK[..], 4)
      modifies eK
      ensures Scheduled(box, key, eK[..], 44)
    {
      hide Scheduled;
      var i: nat, rk: nat := 0, 0;
      while true
        invariant 0 <= i < 10 && rk == 4 * i && Scheduled(box, key, eK[..], rk + 4)
        decreases 10 - i
      {
        FirstWord(key, 4, rk + 4, i);
        PlainWord(key, 4, rk + 5);
        PlainWord(key, 4, rk + 6);
        PlainWord(key, 4, rk + 7);
        i := i + 1;
        if i == 10 {
          break;
        }
        rk := rk + 4;
      }
    }

    method Expand192(ghost key: seq<Col>)
      requires |key| == 6 && eK.Length == 60 && Scheduled(box, key, eK[..], 6)
      modifies eK
      ensures Scheduled(box, key, eK[..], 52)
    {
      hide Scheduled;
      var i: nat, rk: nat := 0, 0;
      while true
        invariant 0 <= i < 8 && rk == 6 * i && Scheduled(box, key, eK[..], rk + 6)
        decreases 8 - i
      {
        FirstWord(key, 6, rk + 6, i);
        PlainWord(key, 6, rk + 7);
        PlainWord(key, 6, rk + 8);
        PlainWord(key, 6, rk + 9);
        i := i + 1;
        if i == 8 {
          break;
        }
        PlainWord(key, 6, rk + 10);
        PlainWord(key, 6, rk + 11);
        rk := rk + 6;
      }
    }

    method Expand256(ghost key: seq<Col>)
      requires |key| == 8 && eK.Length == 60 && Scheduled(box, key, eK[..], 8)
      modifies eK
      ensures Scheduled(box, key, eK[..], 60)
    {
      hide Scheduled;
      var i: nat, rk: nat := 0, 0;
      while true
        invariant 0 <= i < 7 && rk == 8 * i && Scheduled(box, key, eK[..], rk + 8)
        decreases 7 - i
      {
        FirstWord(key, 8, rk + 8, i);
        PlainWord(key, 8, rk + 9);
        PlainWord(key, 8, rk + 10);
        PlainWord(key, 8, rk + 11);
        i := i + 1;
        if i == 7 {
          break;
        }
        MiddleWord(key, rk + 12);
        PlainWord(key, 8, rk + 13);
        PlainWord(key, 8, rk + 14);
        PlainWord(key, 8, rk + 15);
        rk := rk + 8;
      }
    }

    /** Stores the next round key for decryption. */
    method SetKey(ghost d: seq<State>, i: nat, k0: Word32, k1: Word32, k2: Word32, k3: Word32)
      requires dK.Length == 60 && i < |d| <= 15 && Holds(dK[..], d, i)
      requires k0 == Pack(d[i].c0) && k1 == Pack(d[i].c1) && k2 == Pack(d[i].c2) && k3 == Pack(d[i].c3)
      modifies dK
      ensures Holds(dK[..], d, i + 1)
    {
      hide Pack;
      ghost var before := dK[..];
      dK[4 * i], dK[4 * i + 1], dK[4 * i + 2], dK[4 * i + 3] := k0, k1, k2, k3;
      HoldsMore(before, dK[..], d, i);
    }

    /** Turns the round keys of encryption into those of decryption. */
    method InvertKeys(ghost keys: seq<State>)
      requires eK != dK && eK.Length == 60 && dK.Length == 60
      requires |keys| == nr + 1 && 2 <= |keys| <= 15 && Holds(eK[..], keys, nr + 1)
      modifies dK
      ensures Holds(dK[..], DecryptionKeys(keys), nr + 1)
    {
      hide Pack, KeyWord, InvMix, DecryptionKeys, Holds;
      ghost var (k, d) := (eK[..], DecryptionKeys(keys));
      DecryptionEnds(keys, dK[..]);
      HeldKey(k, keys, nr);
      HeldKey(k, keys, 0);
      var j := 4 * nr;
      SetKey(d, 0, eK[j], eK[j + 1], eK[j + 2], eK[j + 3]);
      for i := 1 to nr
        invariant Holds(dK[..], d, i) && j == 4 * (nr - i + 1)
      {
        j := j - 4;
        InvertedKey(k, keys, nr - i);
        SetKey(d, i, KeyWord(eK[j]), KeyWord(eK[j + 1]), KeyWord(eK[j + 2]), KeyWord(eK[j + 3]));
      }
      SetKey(d, nr, eK[0], eK[1], eK[2], eK[3]);
    }

    /** The key has been set up. */
    ghost predicate Ready(key: seq<Byte>)
      reads this, eK, dK
    {
      && eK != dK && eK.Length == 60 && dK.Length == 60
      && |key| in {16, 24, 32} && nr == |key| / 4 + 6
      && Holds(eK[..], Keys(box, key), nr + 1)
      && Holds(dK[..], DecryptionKeys(Keys(box, key)), nr + 1)
    }

    /** Sets up both key schedules; any other key length is refused. */
    method Init(key: seq<Byte>) returns (ok: bool)
      requires eK != dK && eK.Length == 60 && dK.Length == 60
      modifies this, eK, dK
      ensures ok == (|key| in {16, 24, 32})
      ensures ok ==> Ready(key)
      ensures !ok ==> nr == old(nr) && eK[..] == old(eK[..]) && dK[..] == old(dK[..])
    {
      if |key| != 16 && |key| != 24 && |key| != 32 {
        return false;
      }
      hide Pack, Word, Scheduled, KeySchedule, DecryptionKeys, Holds;
      nr := 10 + (|key| / 8 - 2) * 2;
      ghost var cols := KeyCols(key);
      LoadKey(key);
      if |key| == 16 {
        Expand128(cols);
      } else if |key| == 24 {
        Expand192(cols);
      } else {
        Expand256(cols);
      }
      ScheduleHeld(box, cols, eK[..]);
      InvertKeys(Keys(box, key));
      ok := true;
    }

    method LoadKey(key: seq<Byte>)
      requires |key| in {16, 24, 32} && eK.Length == 60
      modifies eK
      ensures Scheduled(box, KeyCols(key), eK[..], |key| / 4)
    {
      hide Pack;
      ghost var cols := KeyCols(key);
      for i := 0 to |key| / 4
        invariant forall j :: 0 <= j < i ==> eK[j] == Pack(cols[j])
      {
        eK[i] := Pack(Col(key[4 * i], key[4 * i + 1], key[4 * i + 2], key[4 * i + 3]));
      }
    }

    /** A full round of encryption with the key at `rk`. */
    method EncPass(rk: nat, s0: Word32, s1: Word32, s2: Word32, s3: Word32, ghost a: State, ghost key: State)
      returns (t0: Word32, t1: Word32, t2: Word32, t3: Word32)
      requires rk % 4 == 0 && KeyAt(eK[..], rk / 4, key) && IsPacked(s0, s1, s2, s3, a)
      ensures IsPacked(t0, t1, t2, t3, AddKey(MixColumns(ShiftRows(SubBytes(box.s, a))), key))
    {
      hide Pack, EncWord, AddKey, MixColumns, ShiftRows, SubBytes;
      EncRound(box, a, key);
      t0 := EncWord(box, s0, s1, s2, s3, eK[rk]);
      t1 := EncWord(box, s1, s2, s3, s0, eK[rk + 1]);
      t2 := EncWord(box, s2, s3, s0, s1, eK[rk + 2]);
      t3 := EncWord(box, s3, s0, s1, s2, eK[rk + 3]);
    }

    method LastEncPass(rk: nat, t0: Word32, t1: Word32, t2: Word32, t3: Word32, ghost a: State, ghost key: State)
      returns (s0: Word32, s1: Word32, s2: Word32, s3: Word32)
      requires rk % 4 == 0 && KeyAt(eK[..], rk / 4, key) && IsPacked(t0, t1, t2, t3, a)
      ensures IsPacked(s0, s1, s2, s3, AddKey(ShiftRows(SubBytes(box.s, a)), key))
    {
      hide Pack, LastEncWord, AddKey, ShiftRows, SubBytes;
      LastEncRound(box, a, key);
      s0 := LastEncWord(box, t0, t1, t2, t3, eK[rk]);
      s1 := LastEncWord(box, t1, t2, t3, t0, eK[rk + 1]);
      s2 := LastEncWord(box, t2, t3, t0, t1, eK[rk + 2]);
      s3 := LastEncWord(box, t3, t0, t1, t2, eK[rk + 3]);
    }

    /** A full round of decryption with the key at `rk`. */
    method DecPass(rk: nat, s0: Word32, s1: Word32, s2: Word32, s3: Word32, ghost a: State, ghost key: State)
      returns (t0: Word32, t1: Word32, t2: Word32, t3: Word32)
      requires rk % 4 == 0 && KeyAt(dK[..], rk / 4, key) && IsPacked(s0, s1, s2, s3, a)
      ensures IsPacked(t0, t1, t2, t3, AddKey(InvMixColumns(InvShiftRows(SubBytes(box.si, a))), key))
    {
      hide Pack, DecWord, AddKey, InvMixColumns, InvShiftRows, SubBytes;
      DecRound(box, a, key);
      t0 := DecWord(box, s0, s3, s2, s1, dK[rk]);
      t1 := DecWord(box, s1, s0, s3, s2, dK[rk + 1]);
      t2 := DecWord(box, s2, s1, s0, s3, dK[rk + 2]);
      t3 := DecWord(box, s3, s2, s1, s0, dK[rk + 3]);
    }

    method LastDecPass(rk: nat, t0: Word32, t1: Word32, t2: Word32, t3: Word32, ghost a: State, ghost key: State)
      returns (s0: Word32, s1: Word32, s2: Word32, s3: Word32)
      requires rk % 4 == 0 && KeyAt(dK[..], rk / 4, key) && IsPacked(t0, t1, t2, t3, a)
      ensures IsPacked(s0, s1, s2, s3, AddKey(InvShiftRows(SubBytes(box.si, a)), key))
    {
      hide Pack, LastDecWord, AddKey, InvShiftRows, SubBytes;
      LastDecRound(box, a, key);
      s0 := LastDecWord(box, t0, t3, t2, t1, dK[rk]);
      s1 := LastDecWord(box, t1, t0, t3, t2, dK[rk + 1]);
      s2 := LastDecWord(box, t2, t1, t0, t3, dK[rk + 2]);
      s3 := LastDecWord(box, t3, t2, t1, t0, dK[rk + 3]);
    }

    method Encrypt(ghost key: seq<Byte>, inp: array<Byte>, out: array<Byte>)
      requires Ready(key) && inp.Length >= 16 && out.Length >= 16
      modifies out
      ensures out[..16] == EncryptedBlock(box, key, old(inp[..16])) && out[16..] == old(out[16..])
    {
      hide Pack, IsPacked, KeyAt, Holds, Keys, ToState, FromState, AddKey, MixColumns, ShiftRows, SubBytes, DecryptionKeys;
      ghost var (x, keys, k) := (ToState(inp[..16]), Keys(box, key), eK[..]);
      HeldKey(k, keys, 0);
      var s0, s1, s2, s3 := Begin(inp, eK, keys[0]);
      var t0, t1, t2, t3 := s0, s1, s2, s3;
      var r, rk := nr / 2, 0;
      while true
        invariant 0 < r <= nr / 2 && rk == 8 * (nr / 2 - r)
        invariant IsPacked(s0, s1, s2, s3, Rounds(box, keys, 2 * (nr / 2 - r), x))
        modifies {}
        decreases r
      {
        ghost var n := 2 * (nr / 2 - r);
        HeldKey(k, keys, n + 1);
        t0, t1, t2, t3 := EncPass(rk + 4, s0, s1, s2, s3, Rounds(box, keys, n, x), keys[n + 1]);
        rk, r := rk + 8, r - 1;
        HeldKey(k, keys, n + 2);
        if r == 0 {
          break;
        }
        s0, s1, s2, s3 := EncPass(rk, t0, t1, t2, t3, Rounds(box, keys, n + 1, x), keys[n + 2]);
      }
      s0, s1, s2, s3 := LastEncPass(rk, t0, t1, t2, t3, Rounds(box, keys, nr - 1, x), keys[nr]);
      Finish(s0, s1, s2, s3, Cipher(box, keys, x), out);
    }

    method Decrypt(ghost key: seq<Byte>, inp: array<Byte>, out: array<Byte>)
      requires Ready(key) && inp.Length >= 16 && out.Length >= 16
      modifies out
      ensures out[..16] == DecryptedBlock(box, key, old(inp[..16])) && out[16..] == old(out[16..])
    {
      hide Pack, IsPacked, KeyAt, Holds, Keys, ToState, FromState, AddKey, InvMixColumns, InvShiftRows, SubBytes, DecryptionKeys;
      ghost var (x, keys, k) := (ToState(inp[..16]), DecryptionKeys(Keys(box, key)), dK[..]);
      HeldKey(k, keys, 0);
      var s0, s1, s2, s3 := Begin(inp, dK, keys[0]);
      var t0, t1, t2, t3 := s0, s1, s2, s3;
      var r, rk := nr / 2, 0;
      while true
        invariant 0 < r <= nr / 2 && rk == 8 * (nr / 2 - r)
        invariant IsPacked(s0, s1, s2, s3, InvRounds(box, keys, 2 * (nr / 2 - r), x))
        modifies {}
        decreases r
      {
        ghost var n := 2 * (nr / 2 - r);
        HeldKey(k, keys, n + 1);
        t0, t1, t2, t3 := DecPass(rk + 4, s0, s1, s2, s3, InvRounds(box, keys, n, x), keys[n + 1]);
        rk, r := rk + 8, r - 1;
        HeldKey(k, keys, n + 2);
        if r == 0 {
          break;
        }
        s0, s1, s2, s3 := DecPass(rk, t0, t1, t2, t3, InvRounds(box, keys, n + 1, x), keys[n + 2]);
      }
      s0, s1, s2, s3 := LastDecPass(rk, t0, t1, t2, t3, InvRounds(box, keys, nr - 1, x), keys[nr]);
      Finish(s0, s1, s2, s3, EqInvCipher(box, keys, x), out);
    }
  }

  lemma BlockIsState(b: seq<Byte>)
    requires |b| == 16
    ensures FromState(ToState(b)) == b
  {
  }

  /** Under one key, of any of the three lengths, decryption gives back what was encrypted. */
  lemma DecryptionUndoes(box: Box, key: seq<Byte>, block: seq<Byte>)
    requires IsInverse(box) && |key| in {16, 24, 32} && |block| == 16
    ensures DecryptedBlock(box, key, EncryptedBlock(box, key, block)) == block
  {
    hide Cipher, EqInvCipher, Keys, IsInverse, ToState, FromState, DecryptionKeys;
    InverseCipher(box, Keys(box, key), ToState(block));
    BlockIsState(block);
  }

  /** Setting a key up, encrypting a block in place and decrypting it in place. */
  method RoundTrip(box: Box, key: seq<Byte>, block: array<Byte>) returns (ok: bool)
    requires IsInverse(box) && block.Length == 16
    modifies block
    ensures ok == (|key| in {16, 24, 32}) && block[..] == old(block[..])
  {
    var k := new AesKey(box);
    ok := k.Init(key);
    if ok {
      ThereAndBack(k, key, block);
    }
  }

  method ThereAndBack(k: AesKey, key: seq<Byte>, block: array<Byte>)
    requires IsInverse(k.box) && k.Ready(key) && block.Length == 16
    modifies block
    ensures block[..] == old(block[..])
  {
    hide AesKey.Ready, EncryptedBlock, DecryptedBlock, IsInverse;
    assert |key| in {16, 24, 32} by { ReadyLength(k, key); }
    DecryptionUndoes(k.box, key, block[..16]);
    k.Encrypt(key, block, block);
    k.Decrypt(key, block, block);
    assert block[..] == block[..16];
  }

  lemma ReadyLength(k: AesKey, key: seq<Byte>)
    requires k.Ready(key)
    ensures |key| in {16, 24, 32}
  {
  }

  lemma DecryptionEnds(keys: seq<State>, k: seq<Word32>)
    requires |keys| >= 2
    ensures var d := DecryptionKeys(keys); d[0] == keys[|keys| - 1] && d[|keys| - 1] == keys[0] && Holds(k, d, 0)
  {
  }

  lemma HeldKey(k: seq<Word32>, keys: seq<State>, r: nat)
    requires r < |keys| && Holds(k, keys, |keys|)
    ensures KeyAt(k, r, keys[r])
  {
  }

  lemma InvertedKey(k: seq<Word32>, keys: seq<State>, r: nat)
    requires 0 < r < |keys| - 1 && Holds(k, keys, |keys|)
    ensures 4 * r + 4 <= |k|
    ensures var d := DecryptionKeys(keys)[|keys| - 1 - r];
      && KeyWord(k[4 * r]) == Pack(d.c0) && KeyWord(k[4 * r + 1]) == Pack(d.c1)
      && KeyWord(k[4 * r + 2]) == Pack(d.c2) && KeyWord(k[4 * r + 3]) == Pack(d.c3)
  {
    assert DecryptionKeys(keys)[|keys| - 1 - r] == InvMixColumns(keys[r]);
    hide Pack, KeyWord, InvMix;
    assert KeyAt(k, r, keys[r]);
    KeyWordPacks(keys[r].c0);
    KeyWordPacks(keys[r].c1);
    KeyWordPacks(keys[r].c2);
    KeyWordPacks(keys[r].c3);
  }

  lemma HoldsMore(k: seq<Word32>, l: seq<Word32>, keys: seq<State>, n: nat)
    requires n < |keys| && Holds(k, keys, n) && |l| == |k| && 4 * n + 4 <= |k| && l[..4 * n] == k[..4 * n]
    requires KeyAt(l, n, keys[n])
    ensures Holds(l, keys, n + 1)
  {
    hide Pack;
    forall r: nat | r < n ensures KeyAt(l, r, keys[r]) {
      assert KeyAt(k, r, keys[r]);
      assert forall x :: 0 <= x < 4 * n ==> l[x] == l[..4 * n][x] == k[..4 * n][x] == k[x];
    }
  }

  lemma TurnIndex(nk: nat, n: nat, i: nat)
    requires nk in {4, 6, 8} && n == nk * (i + 1)
    ensures n % nk == 0 && n / nk == i + 1
  {
  }
}
