/**
 * The AES block cipher as FIPS 197 defines it: the forward cipher of section
 * 5.1, the key expansion of section 5.2 and the equivalent inverse cipher of
 * section 5.3.5.  A state is its four columns.  The substitution table and its
 * inverse are parameters.
 */
module AesCipher {

  type Byte = bv8

  /** A column of the state, or a word of the key schedule, first row first. */
  datatype Col = Col(b0: Byte, b1: Byte, b2: Byte, b3: Byte)

  datatype State = State(c0: Col, c1: Col, c2: Col, c3: Col)

  datatype Box = Box(s: Byte -> Byte, si: Byte -> Byte)

  ghost predicate IsInverse(box: Box) { forall x: Byte :: box.si(box.s(x)) == x }

  // ----- Arithmetic in GF(2^8), section 4 -----

  function Plus(x: Byte, y: Byte): Byte { x ^ y }

  /** Multiplication by x, the xtime operation of section 4.2.1, with the reduction by
      x^8 + x^4 + x^3 + x + 1 spelled out as shifts. */
  function X2(x: Byte): Byte {
    var top := x >> 7;
    (x << 1) ^ top ^ (top << 1) ^ (top << 3) ^ (top << 4)
  }

  lemma PlusLaws(p: Byte, q: Byte)
    ensures Plus(p, q) == Plus(q, p) && Plus(p, p) == 0 && Plus(p, 0) == p && Plus(0, p) == p
  {
  }

  lemma PlusAssociates(p: Byte, q: Byte, r: Byte)
    ensures Plus(p, Plus(q, r)) == Plus(Plus(p, q), r)
  {
  }

  lemma PlusRegroups(p: Byte, q: Byte, r: Byte, s: Byte)
    ensures Plus(Plus(p, q), Plus(r, s)) == Plus(Plus(p, r), Plus(q, s))
  {
    hide Plus;
    PlusAssociates(p, q, Plus(r, s));
    PlusAssociates(q, r, s);
    PlusLaws(q, r);
    PlusAssociates(r, q, s);
    PlusAssociates(p, r, Plus(q, s));
  }

  lemma Linear2(x: Byte, y: Byte)
    ensures X2(Plus(x, y)) == Plus(X2(x), X2(y))
  {
  }

  /** A summand of a polynomial over GF(2). */
  function Term(c: bool, x: Byte): Byte { if c then x else 0 }

  /** The product of `x` with the polynomial whose coefficients are given, lowest first. */
  function Times(x: Byte, c0: bool, c1: bool, c2: bool, c3: bool, c4: bool): Byte {
    var (x1, x2, x3, x4) := (X2(x), X2(X2(x)), X2(X2(X2(x))), X2(X2(X2(X2(x)))));
    Plus(Plus(Term(c0, x), Term(c1, x1)), Plus(Plus(Term(c2, x2), Term(c3, x3)), Term(c4, x4)))
  }

  lemma TermLaws(c: bool, d: bool, x: Byte, y: Byte)
    ensures Plus(Term(c, x), Term(d, x)) == Term(c != d, x)
    ensures Term(c, Plus(x, y)) == Plus(Term(c, x), Term(c, y))
  {
    hide Plus;
    PlusLaws(x, y);
    PlusLaws(0, 0);
  }

  /** Sums of five summands add up summand by summand. */
  lemma AddFives(a0: Byte, a1: Byte, a2: Byte, a3: Byte, a4: Byte, b0: Byte, b1: Byte, b2: Byte, b3: Byte, b4: Byte)
    ensures Plus(Plus(Plus(a0, a1), Plus(Plus(a2, a3), a4)), Plus(Plus(b0, b1), Plus(Plus(b2, b3), b4))) ==
            Plus(Plus(Plus(a0, b0), Plus(a1, b1)), Plus(Plus(Plus(a2, b2), Plus(a3, b3)), Plus(a4, b4)))
  {
    hide Plus;
    PlusRegroups(Plus(a0, a1), Plus(Plus(a2, a3), a4), Plus(b0, b1), Plus(Plus(b2, b3), b4));
    PlusRegroups(a0, a1, b0, b1);
    PlusRegroups(Plus(a2, a3), a4, Plus(b2, b3), b4);
    PlusRegroups(a2, a3, b2, b3);
  }

  /** Products with one byte add up as the polynomials do. */
  lemma TimesPlus(x: Byte, c0: bool, c1: bool, c2: bool, c3: bool, c4: bool,
                  d0: bool, d1: bool, d2: bool, d3: bool, d4: bool)
    ensures Plus(Times(x, c0, c1, c2, c3, c4), Times(x, d0, d1, d2, d3, d4)) ==
            Times(x, c0 != d0, c1 != d1, c2 != d2, c3 != d3, c4 != d4)
  {
    hide Plus, X2, Term;
    var (x1, x2, x3, x4) := (X2(x), X2(X2(x)), X2(X2(X2(x))), X2(X2(X2(X2(x)))));
    TermLaws(c0, d0, x, x);
    TermLaws(c1, d1, x1, x1);
    TermLaws(c2, d2, x2, x2);
    TermLaws(c3, d3, x3, x3);
    TermLaws(c4, d4, x4, x4);
    AddFives(Term(c0, x), Term(c1, x1), Term(c2, x2), Term(c3, x3), Term(c4, x4),
             Term(d0, x), Term(d1, x1), Term(d2, x2), Term(d3, x3), Term(d4, x4));
  }

  /** Products with one polynomial add up as the bytes do. */
  lemma TimesLinear(x: Byte, y: Byte, c0: bool, c1: bool, c2: bool, c3: bool, c4: bool)
    ensures Times(Plus(x, y), c0, c1, c2, c3, c4) == Plus(Times(x, c0, c1, c2, c3, c4), Times(y, c0, c1, c2, c3, c4))
  {
    hide Plus, X2, Term;
    var (x1, x2, x3, x4) := (X2(x), X2(X2(x)), X2(X2(X2(x))), X2(X2(X2(X2(x)))));
    var (y1, y2, y3, y4) := (X2(y), X2(X2(y)), X2(X2(X2(y))), X2(X2(X2(X2(y)))));
    Linear2(x, y);
    Linear2(x1, y1);
    Linear2(x2, y2);
    Linear2(x3, y3);
    TermLaws(c0, c0, x, y);
    TermLaws(c1, c1, x1, y1);
    TermLaws(c2, c2, x2, y2);
    TermLaws(c3, c3, x3, y3);
    TermLaws(c4, c4, x4, y4);
    AddFives(Term(c0, x), Term(c1, x1), Term(c2, x2), Term(c3, x3), Term(c4, x4),
             Term(c0, y), Term(c1, y1), Term(c2, y2), Term(c3, y3), Term(c4, y4));
  }

  /** Multiplying by x first shifts the polynomial. */
  lemma TimesX2(x: Byte, c0: bool, c1: bool, c2: bool, c3: bool)
    ensures Times(X2(x), c0, c1, c2, c3, false) == Times(x, false, c0, c1, c2, c3)
  {
    hide Plus, X2;
    var (a, b, c, d) := (Term(c0, X2(x)), Term(c1, X2(X2(x))), Term(c2, X2(X2(X2(x)))), Term(c3, X2(X2(X2(X2(x))))));
    PlusLaws(Plus(c, d), 0);
    PlusLaws(a, 0);
    PlusAssociates(a, b, Plus(c, d));
    PlusAssociates(b, c, d);
  }

  lemma TimesUnits(x: Byte)
    ensures Times(x, true, false, false, false, false) == x
    ensures Times(x, false, true, false, false, false) == X2(x)
    ensures Times(x, true, true, false, false, false) == Plus(X2(x), x)
    ensures Times(x, false, false, false, false, false) == 0
  {
    hide Plus, X2;
    PlusLaws(0, 0);
    PlusLaws(x, X2(x));
    PlusLaws(Plus(x, X2(x)), 0);
    PlusLaws(X2(x), 0);
  }

  function X3(x: Byte): Byte { Times(x, true, true, false, false, false) }
  function X9(x: Byte): Byte { Times(x, true, false, false, true, false) }
  function XB(x: Byte): Byte { Times(x, true, true, false, true, false) }
  function XD(x: Byte): Byte { Times(x, true, false, true, true, false) }
  function XE(x: Byte): Byte { Times(x, false, true, true, true, false) }

  lemma TimesX3(x: Byte, c0: bool, c1: bool, c2: bool, c3: bool)
    ensures Times(X3(x), c0, c1, c2, c3, false) == Times(x, c0, c0 != c1, c1 != c2, c2 != c3, c3)
  {
    TimesUnits(x);
    TimesLinear(X2(x), x, c0, c1, c2, c3, false);
    TimesX2(x, c0, c1, c2, c3);
    TimesPlus(x, false, c0, c1, c2, c3, c0, c1, c2, c3, false);
    hide Plus, X2, Times;
  }

  function Sum(p: Byte, q: Byte, r: Byte, s: Byte): Byte { Plus(Plus(p, q), Plus(r, s)) }

  lemma SumTimes(x: Byte, c0: bool, c1: bool, c2: bool, c3: bool, c4: bool, d0: bool, d1: bool, d2: bool, d3: bool, d4: bool,
                 e0: bool, e1: bool, e2: bool, e3: bool, e4: bool, f0: bool, f1: bool, f2: bool, f3: bool, f4: bool)
    ensures Sum(Times(x, c0, c1, c2, c3, c4), Times(x, d0, d1, d2, d3, d4),
                Times(x, e0, e1, e2, e3, e4), Times(x, f0, f1, f2, f3, f4)) ==
            Times(x, (c0 != d0) != (e0 != f0), (c1 != d1) != (e1 != f1), (c2 != d2) != (e2 != f2),
                  (c3 != d3) != (e3 != f3), (c4 != d4) != (e4 != f4))
  {
    hide Plus, Times;
    TimesPlus(x, c0, c1, c2, c3, c4, d0, d1, d2, d3, d4);
    TimesPlus(x, e0, e1, e2, e3, e4, f0, f1, f2, f3, f4);
    TimesPlus(x, c0 != d0, c1 != d1, c2 != d2, c3 != d3, c4 != d4, e0 != f0, e1 != f1, e2 != f2, e3 != f3, e4 != f4);
  }

  /** The first row of the inverse matrix times the columns of the matrix. */
  lemma Coefficients(b: Byte)
    ensures Sum(XE(X2(b)), XB(b), XD(b), X9(X3(b))) == b
    ensures Sum(XE(X3(b)), XB(X2(b)), XD(b), X9(b)) == 0
    ensures Sum(XE(b), XB(X3(b)), XD(X2(b)), X9(b)) == 0
    ensures Sum(XE(b), XB(b), XD(X3(b)), X9(X2(b))) == 0
  {
    hide Plus, X2, Times, Sum, X3;
    TimesUnits(b);
    TimesX2(b, false, true, true, true);
    TimesX3(b, true, false, false, true);
    SumTimes(b, false, false, true, true, true, true, true, false, true, false,
             true, false, true, true, false, true, true, false, true, true);
    TimesX3(b, false, true, true, true);
    TimesX2(b, true, true, false, true);
    SumTimes(b, false, true, false, false, true, false, true, true, false, true,
             true, false, true, true, false, true, false, false, true, false);
    TimesX3(b, true, true, false, true);
    TimesX2(b, true, false, true, true);
    SumTimes(b, false, true, true, true, false, true, false, true, true, true,
             false, true, false, true, true, true, false, false, true, false);
    TimesX3(b, true, false, true, true);
    TimesX2(b, true, false, false, true);
    SumTimes(b, false, true, true, true, false, true, true, false, true, false,
             true, true, true, false, true, false, true, false, false, true);
  }

  lemma SumPlus(a0: Byte, a1: Byte, a2: Byte, a3: Byte, b0: Byte, b1: Byte, b2: Byte, b3: Byte)
    ensures Plus(Sum(a0, a1, a2, a3), Sum(b0, b1, b2, b3)) ==
            Sum(Plus(a0, b0), Plus(a1, b1), Plus(a2, b2), Plus(a3, b3))
  {
    hide Plus;
    PlusRegroups(Plus(a0, a1), Plus(a2, a3), Plus(b0, b1), Plus(b2, b3));
    PlusRegroups(a0, a1, b0, b1);
    PlusRegroups(a2, a3, b2, b3);
  }

  lemma SumOfSums(a0: Byte, a1: Byte, a2: Byte, a3: Byte, b0: Byte, b1: Byte, b2: Byte, b3: Byte,
                  c0: Byte, c1: Byte, c2: Byte, c3: Byte, d0: Byte, d1: Byte, d2: Byte, d3: Byte)
    ensures Sum(Sum(a0, a1, a2, a3), Sum(b0, b1, b2, b3), Sum(c0, c1, c2, c3), Sum(d0, d1, d2, d3)) ==
            Sum(Sum(a0, b0, c0, d0), Sum(a1, b1, c1, d1), Sum(a2, b2, c2, d2), Sum(a3, b3, c3, d3))
  {
    hide Plus;
    SumPlus(a0, a1, a2, a3, b0, b1, b2, b3);
    SumPlus(c0, c1, c2, c3, d0, d1, d2, d3);
    SumPlus(Plus(a0, b0), Plus(a1, b1), Plus(a2, b2), Plus(a3, b3),
            Plus(c0, d0), Plus(c1, d1), Plus(c2, d2), Plus(c3, d3));
  }

  lemma SumRotates(p: Byte, q: Byte, r: Byte, s: Byte)
    ensures Sum(p, q, r, s) == Sum(q, r, s, p)
  {
    hide Plus;
    PlusLaws(p, q);
    PlusRegroups(q, p, r, s);
    PlusLaws(p, s);
  }

  lemma FactorsLinear(x: Byte, y: Byte)
    ensures XE(Plus(x, y)) == Plus(XE(x), XE(y)) && XB(Plus(x, y)) == Plus(XB(x), XB(y))
    ensures XD(Plus(x, y)) == Plus(XD(x), XD(y)) && X9(Plus(x, y)) == Plus(X9(x), X9(y))
  {
    hide Plus, Times;
    TimesLinear(x, y, false, true, true, true, false);
    TimesLinear(x, y, true, true, false, true, false);
    TimesLinear(x, y, true, false, true, true, false);
    TimesLinear(x, y, true, false, false, true, false);
  }

  lemma SumLinear(p: Byte, q: Byte, r: Byte, s: Byte)
    ensures XE(Sum(p, q, r, s)) == Sum(XE(p), XE(q), XE(r), XE(s)) && XB(Sum(p, q, r, s)) == Sum(XB(p), XB(q), XB(r), XB(s))
    ensures XD(Sum(p, q, r, s)) == Sum(XD(p), XD(q), XD(r), XD(s)) && X9(Sum(p, q, r, s)) == Sum(X9(p), X9(q), X9(r), X9(s))
  {
    hide Plus, XE, XB, XD, X9;
    FactorsLinear(p, q);
    FactorsLinear(r, s);
    FactorsLinear(Plus(p, q), Plus(r, s));
  }

  // ----- Columns -----

  function Add(a: Col, b: Col): Col {
    Col(Plus(a.b0, b.b0), Plus(a.b1, b.b1), Plus(a.b2, b.b2), Plus(a.b3, b.b3))
  }

  function SubWord(f: Byte -> Byte, a: Col): Col { Col(f(a.b0), f(a.b1), f(a.b2), f(a.b3)) }

  function RotWord(a: Col): Col { Col(a.b1, a.b2, a.b3, a.b0) }

  function Mix(a: Col): Col {
    Col(Sum(X2(a.b0), X3(a.b1), a.b2, a.b3),
        Sum(a.b0, X2(a.b1), X3(a.b2), a.b3),
        Sum(a.b0, a.b1, X2(a.b2), X3(a.b3)),
        Sum(X3(a.b0), a.b1, a.b2, X2(a.b3)))
  }

  function InvMix(a: Col): Col {
    Col(Sum(XE(a.b0), XB(a.b1), XD(a.b2), X9(a.b3)),
        Sum(X9(a.b0), XE(a.b1), XB(a.b2), XD(a.b3)),
        Sum(XD(a.b0), X9(a.b1), XE(a.b2), XB(a.b3)),
        Sum(XB(a.b0), XD(a.b1), X9(a.b2), XE(a.b3)))
  }

  lemma AddLaws(a: Col, b: Col)
    ensures Add(Add(a, b), b) == a && Add(a, b) == Add(b, a)
  {
    hide Plus;
    forall x: Byte, y: Byte ensures Plus(Plus(x, y), y) == x && Plus(x, y) == Plus(y, x) {
      PlusAssociates(x, y, y);
      PlusLaws(x, y);
      PlusLaws(y, y);
    }
  }

  lemma MixRow(a: Col)
    ensures InvMix(Mix(a)).b0 == a.b0
  {
    hide Plus, X2, X3, Sum, XE, XB, XD, X9;
    SumLinear(X2(a.b0), X3(a.b1), a.b2, a.b3);
    SumLinear(a.b0, X2(a.b1), X3(a.b2), a.b3);
    SumLinear(a.b0, a.b1, X2(a.b2), X3(a.b3));
    SumLinear(X3(a.b0), a.b1, a.b2, X2(a.b3));
    SumOfSums(XE(X2(a.b0)), XE(X3(a.b1)), XE(a.b2), XE(a.b3), XB(a.b0), XB(X2(a.b1)), XB(X3(a.b2)), XB(a.b3),
              XD(a.b0), XD(a.b1), XD(X2(a.b2)), XD(X3(a.b3)), X9(X3(a.b0)), X9(a.b1), X9(a.b2), X9(X2(a.b3)));
    Coefficients(a.b0);
    Coefficients(a.b1);
    Coefficients(a.b2);
    Coefficients(a.b3);
    assert Sum(a.b0, 0, 0, 0) == a.b0 by { PlusLaws(0, 0); PlusLaws(a.b0, 0); SumUnfolds(a.b0, 0, 0, 0); }
  }

  lemma SumUnfolds(p: Byte, q: Byte, r: Byte, s: Byte)
    ensures Sum(p, q, r, s) == Plus(Plus(p, q), Plus(r, s))
  {
  }

  lemma MixRotates(a: Col)
    ensures Mix(RotWord(a)) == RotWord(Mix(a)) && InvMix(RotWord(a)) == RotWord(InvMix(a))
  {
    hide X2, X3, X9, XB, XD, XE, Sum;
    SumRotates(a.b0, X2(a.b1), X3(a.b2), a.b3);
    SumRotates(a.b0, a.b1, X2(a.b2), X3(a.b3));
    SumRotates(X3(a.b0), a.b1, a.b2, X2(a.b3));
    SumRotates(X2(a.b0), X3(a.b1), a.b2, a.b3);
    SumRotates(X9(a.b0), XE(a.b1), XB(a.b2), XD(a.b3));
    SumRotates(XD(a.b0), X9(a.b1), XE(a.b2), XB(a.b3));
    SumRotates(XB(a.b0), XD(a.b1), X9(a.b2), XE(a.b3));
    SumRotates(XE(a.b0), XB(a.b1), XD(a.b2), X9(a.b3));
  }

  /** InvMixColumns undoes MixColumns. */
  lemma MixInverse(a: Col)
    ensures InvMix(Mix(a)) == a
  {
    hide Mix, InvMix;
    var (b, c, d) := (RotWord(a), RotWord(RotWord(a)), RotWord(RotWord(RotWord(a))));
    MixRotates(a);
    MixRotates(b);
    MixRotates(c);
    MixRotates(Mix(a));
    MixRotates(Mix(b));
    MixRotates(Mix(c));
    MixRow(a);
    MixRow(b);
    MixRow(c);
    MixRow(d);
  }

  lemma InvMixLinear(a: Col, b: Col)
    ensures InvMix(Add(a, b)) == Add(InvMix(a), InvMix(b))
  {
    hide Plus, Sum, X9, XB, XD, XE;
    FactorsLinear(a.b0, b.b0);
    FactorsLinear(a.b1, b.b1);
    FactorsLinear(a.b2, b.b2);
    FactorsLinear(a.b3, b.b3);
    SumPlus(XE(a.b0), XB(a.b1), XD(a.b2), X9(a.b3), XE(b.b0), XB(b.b1), XD(b.b2), X9(b.b3));
    SumPlus(X9(a.b0), XE(a.b1), XB(a.b2), XD(a.b3), X9(b.b0), XE(b.b1), XB(b.b2), XD(b.b3));
    SumPlus(XD(a.b0), X9(a.b1), XE(a.b2), XB(a.b3), XD(b.b0), X9(b.b1), XE(b.b2), XB(b.b3));
    SumPlus(XB(a.b0), XD(a.b1), X9(a.b2), XE(a.b3), XB(b.b0), XD(b.b1), X9(b.b2), XE(b.b3));
  }

  // ----- States, section 5.1 and 5.3 -----

  function AddKey(a: State, k: State): State {
    State(Add(a.c0, k.c0), Add(a.c1, k.c1), Add(a.c2, k.c2), Add(a.c3, k.c3))
  }

  function SubBytes(f: Byte -> Byte, a: State): State {
    State(SubWord(f, a.c0), SubWord(f, a.c1), SubWord(f, a.c2), SubWord(f, a.c3))
  }

  function ShiftRows(a: State): State {
    State(Col(a.c0.b0, a.c1.b1, a.c2.b2, a.c3.b3), Col(a.c1.b0, a.c2.b1, a.c3.b2, a.c0.b3),
          Col(a.c2.b0, a.c3.b1, a.c0.b2, a.c1.b3), Col(a.c3.b0, a.c0.b1, a.c1.b2, a.c2.b3))
  }

  function InvShiftRows(a: State): State {
    State(Col(a.c0.b0, a.c3.b1, a.c2.b2, a.c1.b3), Col(a.c1.b0, a.c0.b1, a.c3.b2, a.c2.b3),
          Col(a.c2.b0, a.c1.b1, a.c0.b2, a.c3.b3), Col(a.c3.b0, a.c2.b1, a.c1.b2, a.c0.b3))
  }

  function MixColumns(a: State): State { State(Mix(a.c0), Mix(a.c1), Mix(a.c2), Mix(a.c3)) }

  function InvMixColumns(a: State): State { State(InvMix(a.c0), InvMix(a.c1), InvMix(a.c2), InvMix(a.c3)) }

  /** The state after `n` full rounds. */
  function Rounds(box: Box, keys: seq<State>, n: nat, x: State): State
    requires n < |keys|
  {
    if n == 0 then AddKey(x, keys[0])
    else AddKey(MixColumns(ShiftRows(SubBytes(box.s, Rounds(box, keys, n - 1, x)))), keys[n])
  }

  function Cipher(box: Box, keys: seq<State>, x: State): State
    requires |keys| >= 2
  {
    AddKey(ShiftRows(SubBytes(box.s, Rounds(box, keys, |keys| - 2, x))), keys[|keys| - 1])
  }

  /** The round keys of the equivalent inverse cipher, in the order of their use. */
  function DecryptionKeys(keys: seq<State>): (d: seq<State>)
    requires |keys| >= 2
    ensures |d| == |keys|
  {
    seq(|keys|, i requires 0 <= i < |keys| =>
      var k := keys[|keys| - 1 - i];
      if i == 0 || i == |keys| - 1 then k else InvMixColumns(k))
  }

  function InvRounds(box: Box, dkeys: seq<State>, n: nat, y: State): State
    requires n < |dkeys|
  {
    if n == 0 then AddKey(y, dkeys[0])
    else AddKey(InvMixColumns(InvShiftRows(SubBytes(box.si, InvRounds(box, dkeys, n - 1, y)))), dkeys[n])
  }

  function EqInvCipher(box: Box, dkeys: seq<State>, y: State): State
    requires |dkeys| >= 2
  {
    AddKey(InvShiftRows(SubBytes(box.si, InvRounds(box, dkeys, |dkeys| - 2, y))), dkeys[|dkeys| - 1])
  }

  lemma SubShiftInverse(box: Box, a: State)
    requires IsInverse(box)
    ensures InvShiftRows(SubBytes(box.si, ShiftRows(SubBytes(box.s, a)))) == a
  {
  }

  lemma AddKeyTwice(a: State, k: State)
    ensures AddKey(AddKey(a, k), k) == a
  {
    hide Add;
    AddLaws(a.c0, k.c0);
    AddLaws(a.c1, k.c1);
    AddLaws(a.c2, k.c2);
    AddLaws(a.c3, k.c3);
  }

  /** A full round, with its key, seen from behind. */
  lemma UndoRound(a: State, k: State)
    ensures AddKey(InvMixColumns(AddKey(MixColumns(a), k)), InvMixColumns(k)) == a
  {
    hide Add, Mix, InvMix;
    InvMixLinear(Mix(a.c0), k.c0);
    InvMixLinear(Mix(a.c1), k.c1);
    InvMixLinear(Mix(a.c2), k.c2);
    InvMixLinear(Mix(a.c3), k.c3);
    MixInverse(a.c0);
    MixInverse(a.c1);
    MixInverse(a.c2);
    MixInverse(a.c3);
    AddKeyTwice(a, InvMixColumns(k));
  }

  /** After `n` rounds of decryption the state is that of `n` rounds before the end of encryption. */
  lemma {:induction false} InvRoundsMirror(box: Box, keys: seq<State>, n: nat, x: State)
    requires IsInverse(box) && n + 2 <= |keys|
    ensures InvRounds(box, DecryptionKeys(keys), n, Cipher(box, keys, x)) ==
            ShiftRows(SubBytes(box.s, Rounds(box, keys, |keys| - 2 - n, x)))
  {
    hide AddKey, InvMixColumns, MixColumns, ShiftRows, InvShiftRows, SubBytes;
    var last := |keys| - 1;
    if n == 0 {
      AddKeyTwice(ShiftRows(SubBytes(box.s, Rounds(box, keys, last - 1, x))), keys[last]);
    } else {
      InvRoundsMirror(box, keys, n - 1, x);
      var m: nat := last - n;
      SubShiftInverse(box, Rounds(box, keys, m, x));
      UndoRound(ShiftRows(SubBytes(box.s, Rounds(box, keys, m - 1, x))), keys[m]);
    }
  }

  /** The equivalent inverse cipher, with the keys derived for it, undoes the cipher. */
  lemma InverseCipher(box: Box, keys: seq<State>, x: State)
    requires IsInverse(box) && |keys| >= 2
    ensures EqInvCipher(box, DecryptionKeys(keys), Cipher(box, keys, x)) == x
  {
    hide AddKey, InvMixColumns, ShiftRows, InvShiftRows, SubBytes, InvRounds, Cipher;
    InvRoundsMirror(box, keys, |keys| - 2, x);
    SubShiftInverse(box, Rounds(box, keys, 0, x));
    AddKeyTwice(x, keys[0]);
  }

  // ----- Key expansion, section 5.2 -----

  /** The round constant's byte: x to the power i - 1. */
  function Rcon(i: nat): Byte
    requires i > 0
  {
    if i == 1 then 1 else X2(Rcon(i - 1))
  }

  /** Word `i` of the key schedule. */
  function Word(box: Box, key: seq<Col>, i: nat): Col
    requires |key| in {4, 6, 8}
  {
    if i < |key| then key[i]
    else Add(Word(box, key, i - |key|), KeyTemp(box, |key|, i, Word(box, key, i - 1)))
  }

  function KeyTemp(box: Box, nk: nat, i: nat, last: Col): Col
    requires nk in {4, 6, 8} && i >= nk
  {
    if i % nk == 0 then Add(SubWord(box.s, RotWord(last)), Col(Rcon(i / nk), 0, 0, 0))
    else if nk > 6 && i % nk == 4 then SubWord(box.s, last)
    else last
  }

  function RoundKey(box: Box, key: seq<Col>, r: nat): State
    requires |key| in {4, 6, 8}
  {
    State(Word(box, key, 4 * r), Word(box, key, 4 * r + 1), Word(box, key, 4 * r + 2), Word(box, key, 4 * r + 3))
  }

  /** The round keys, one more than there are rounds. */
  function KeySchedule(box: Box, key: seq<Col>): (keys: seq<State>)
    requires |key| in {4, 6, 8}
    ensures |keys| == |key| + 7
  {
    seq(|key| + 7, r requires 0 <= r => RoundKey(box, key, r))
  }
}
