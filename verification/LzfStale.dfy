/** lzf_compress looks at what an earlier use left in its hash table: here is an input, and two
    tables for which it writes different octets. Of a match, only the last place is entered
    into the table, so a slot may still name a place that the loop has passed and not
    entered. */
module LzfStale {
  import opened Common
  import opened LzfFormat
  import opened LzfGreedy
  import opened LzfRepeat

  /** A chunk of 512 octets, the smallest size that parcelkeeper/parcelcfg.c takes: 505 zeroes
      and seven octets. The fifth of these ends a group of three that also stands where the
      zeroes end. */
  function Sample(): Bytes {
    seq(505, i => 0) + [1, 2, 0, 0, 1, 9, 8]
  }

  /** Slot 8191, for the octets 0, 0, 1, names their place at the end of the zeroes. */
  function Stale(): seq<int> { Cleared()[8191 := 503] }

  lemma SampleAt(i: nat)
    requires i < 512
    ensures |Sample()| == 512
    ensures Sample()[i] == if i < 505 then 0 else [1, 2, 0, 0, 1, 9, 8][i - 505]
  {
  }

  function TokensBefore(): seq<Token> { [Literal([0, 0]), BackRef(0, 264), BackRef(0, 239)] }

  /** A round that finds no match. */
  lemma LiteralRound(inp: Bytes, room: nat, g: At, h: nat)
    requires AtOk(inp, g) && g.ip < |inp| - 2 && g.op < room && NextHash(g.h, inp, g.ip) == h
    requires g.lit + 1 < MAX_LIT && !Matches(inp, g.tab[Slot(h)], g.ip)
    ensures AtOk(inp, g.(tab := g.tab[Slot(h) := g.ip], h := h, ip := g.ip + 1, op := g.op + 1, lit := g.lit + 1))
    ensures Greedily(inp, room, g) ==
            Greedily(inp, room, g.(tab := g.tab[Slot(h) := g.ip], h := h, ip := g.ip + 1, op := g.op + 1, lit := g.lit + 1))
  {
    hide NextHash, Slot, Matches, Matched, Entered, Last;
    assert Round(inp, room, g) == Some(Literally(inp, LookedUp(inp, g)));
  }

  lemma ZerosMatch()
    ensures |Sample()| == 512
    ensures Matches(Sample(), 1, 2) && MatchLen(Sample(), 0, 2) == 264
    ensures Matches(Sample(), 265, 266) && MatchLen(Sample(), 0, 266) == 239
  {
    var inp := Sample();
    forall i | 0 <= i < 512 ensures inp[i] == if i < 505 then 0 else [1, 2, 0, 0, 1, 9, 8][i - 505] {
      SampleAt(i);
    }
    ExtentIs(inp, 0, 2, 3, MatchLimit(510), 264);
    ExtentIs(inp, 0, 266, 3, MatchLimit(246), 239);
  }

  /** Up to the end of the zeroes: two literals and two matches. */
  lemma ThroughZeros(m: seq<int>) returns (tab: seq<int>)
    requires |m| == HSIZE
    ensures |tab| == HSIZE && forall i :: 0 < i < HSIZE && i != 7934 ==> tab[i] == m[i]
    ensures AtOk(Sample(), Start(Sample(), m)) && AtOk(Sample(), At(tab, 258, 505, 10, 0, TokensBefore()))
    ensures Greedily(Sample(), 512, Start(Sample(), m)) == Greedily(Sample(), 512, At(tab, 258, 505, 10, 0, TokensBefore()))
  {
    hide Sample, Greedily;
    var inp := Sample();
    SampleAt(0);
    SampleAt(1);
    SampleAt(2);
    SampleAt(3);
    LiteralRound(inp, 512, Start(inp, m), 0);
    var g1 := At(m[0 := 0], 0, 1, 2, 1, []);
    assert m[0 := -1][0 := 0] == m[0 := 0];
    LiteralRound(inp, 512, g1, 0);
    var g2 := At(m[0 := 1], 0, 2, 3, 2, []);
    assert m[0 := 0][0 := 1] == m[0 := 1];
    LongMatch(m, g2);
    tab := MatchZeros(m, At(m[0 := 265], 0, 266, 7, 0, [Literal([0, 0]), BackRef(0, 264)]));
  }

  /** The longest match there is. */
  lemma LongMatch(m: seq<int>, g: At)
    requires |m| == HSIZE && g == At(m[0 := 1], 0, 2, 3, 2, [])
    ensures |Sample()| == 512 && AtOk(Sample(), g)
    ensures var g' := At(m[0 := 265], 0, 266, 7, 0, [Literal([0, 0]), BackRef(0, 264)]);
      AtOk(Sample(), g') && Greedily(Sample(), 512, g) == Greedily(Sample(), 512, g')
  {
    hide Sample, MatchLen, Matches;
    var inp := Sample();
    SampleAt(0);
    SampleAt(1);
    SampleAt(4);
    SampleAt(265);
    SampleAt(266);
    SampleAt(267);
    ZerosMatch();
    assert Candidate(inp, g) == 1;
    assert inp[0..2] == [0, 0];
    var g' := Matched(inp, LookedUp(inp, g), 0);
    assert g' == At(m[0 := 1][0 := 2], 0, 266, 7, 0, [Literal([0, 0]), BackRef(0, 264)]);
    assert m[0 := 1][0 := 2][0 := 265] == m[0 := 265];
    assert Entered(inp, g') == At(m[0 := 265], 0, 266, 7, 0, [Literal([0, 0]), BackRef(0, 264)]);
    assert Round(inp, 512, g) == Some(Entered(inp, g'));
  }

  lemma MatchZeros(m: seq<int>, g: At) returns (tab: seq<int>)
    requires |m| == HSIZE && g == At(m[0 := 265], 0, 266, 7, 0, [Literal([0, 0]), BackRef(0, 264)]) && |Sample()| == 512
    ensures |tab| == HSIZE && forall i :: 0 < i < HSIZE && i != 7934 ==> tab[i] == m[i]
    ensures AtOk(Sample(), g) && AtOk(Sample(), At(tab, 258, 505, 10, 0, TokensBefore()))
    ensures Greedily(Sample(), 512, g) == Greedily(Sample(), 512, At(tab, 258, 505, 10, 0, TokensBefore()))
  {
    hide Sample, MatchLen, Matches;
    var inp := Sample();
    SampleAt(268);
    SampleAt(504);
    SampleAt(505);
    SampleAt(506);
    ZerosMatch();
    tab := m[0 := 265][0 := 266][7934 := 504];
    assert Candidate(inp, g) == 265;
    var g' := Matched(inp, LookedUp(inp, g), 0);
    assert g' == At(m[0 := 265][0 := 266], 0, 505, 10, 0, TokensBefore());
    assert Entered(inp, g') == At(tab, 258, 505, 10, 0, TokensBefore());
    assert Round(inp, 512, g) == Some(At(tab, 258, 505, 10, 0, TokensBefore()));
  }

  /** The two literals after the zeroes. */
  lemma AfterZeros(m: seq<int>, tab: seq<int>) returns (tab': seq<int>)
    requires |m| == HSIZE && |tab| == HSIZE && forall i :: 0 < i < HSIZE && i != 7934 ==> tab[i] == m[i]
    requires m[7712] == 0 && m[64] == 0
    ensures |tab'| == HSIZE && tab'[8191] == m[8191]
    ensures AtOk(Sample(), At(tab, 258, 505, 10, 0, TokensBefore()))
    ensures AtOk(Sample(), At(tab', 0x102_0000, 507, 12, 2, TokensBefore()))
    ensures Greedily(Sample(), 512, At(tab, 258, 505, 10, 0, TokensBefore())) ==
            Greedily(Sample(), 512, At(tab', 0x102_0000, 507, 12, 2, TokensBefore()))
  {
    hide Sample, Greedily;
    var inp := Sample();
    SampleAt(507);
    SampleAt(508);
    assert Slot(66048) == 7712;
    assert Slot(0x102_0000) == 64;
    LiteralRound(inp, 512, At(tab, 258, 505, 10, 0, TokensBefore()), 66048);
    var tab1 := tab[7712 := 505];
    LiteralRound(inp, 512, At(tab1, 66048, 506, 11, 1, TokensBefore()), 0x102_0000);
    tab' := tab1[64 := 506];
  }

  /** With nothing in slot 8191, the rest is literals. */
  lemma RestCleared(tab: seq<int>)
    requires |tab| == HSIZE && tab[8191] == 0
    ensures AtOk(Sample(), At(tab, 0x102_0000, 507, 12, 2, TokensBefore()))
    ensures Greedily(Sample(), 512, At(tab, 0x102_0000, 507, 12, 2, TokensBefore())) ==
            Some(TokensBefore() + [Literal([1, 2, 0, 0, 1, 9, 8])])
  {
    hide Sample, Greedily;
    SampleAt(509);
    assert Slot(0x200_0001) == 8191;
    LiteralRound(Sample(), 512, At(tab, 0x102_0000, 507, 12, 2, TokensBefore()), 0x200_0001);
    NearEnd(At(tab[8191 := 507], 0x200_0001, 508, 13, 3, TokensBefore()));
  }

  /** So near the end of the input there are no matches. */
  lemma NearEnd(g: At)
    requires AtOk(Sample(), g) && g.ip == 508 && g.op == 13 && g.lit == 3
    ensures Greedily(Sample(), 512, g) == Some(g.ts + [Literal([1, 2, 0, 0, 1, 9, 8])])
  {
    hide Sample, Greedily, Slot, NextHash;
    var inp := Sample();
    StaleMatch();
    var h1 := NextHash(g.h, inp, 508);
    LiteralRound(inp, 512, g, h1);
    var tab1 := g.tab[Slot(h1) := 508];
    var h2 := NextHash(h1, inp, 509);
    LiteralRound(inp, 512, At(tab1, h1, 509, 14, 4, g.ts), h2);
    LastLiterals(At(tab1[Slot(h2) := 509], h2, 510, 15, 5, g.ts), [1, 2, 0, 0, 1, 9, 8]);
  }

  /** The end of the input, with a run that is still open. */
  lemma LastLiterals(g: At, run: Bytes)
    requires AtOk(Sample(), g) && g.ip == 510 && g.op == 15 && g.lit <= 5
    requires run == Sample()[510 - g.lit..]
    ensures Greedily(Sample(), 512, g) == Some(g.ts + [Literal(run)])
  {
    hide Sample, Round;
    SampleAt(0);
    var inp := Sample();
    assert inp[512 - (g.lit + 2)..512] == run;
    assert Last(inp, 511, g.lit + 1, g.ts) == Last(inp, 512, g.lit + 2, g.ts);
    assert Last(inp, 510, g.lit, g.ts) == Last(inp, 511, g.lit + 1, g.ts);
  }

  /** With place 503 in slot 8191, a match is found. */
  lemma RestStale(tab: seq<int>)
    requires |tab| == HSIZE && tab[8191] == 503
    ensures AtOk(Sample(), At(tab, 0x102_0000, 507, 12, 2, TokensBefore()))
    ensures Greedily(Sample(), 512, At(tab, 0x102_0000, 507, 12, 2, TokensBefore())) ==
            Some(TokensBefore() + [Literal([1, 2]), BackRef(3, 3)] + [Literal([9, 8])])
  {
    hide Sample, Matches, MatchLen;
    var inp, ts := Sample(), TokensBefore();
    StaleMatch();
    SampleAt(505);
    SampleAt(506);
    SampleAt(509);
    var g := At(tab, 0x102_0000, 507, 12, 2, ts);
    assert Candidate(inp, g) == 503;
    assert inp[505..507] == [1, 2];
    var g' := Matched(inp, LookedUp(inp, g), 3);
    assert g'.ts == ts + [Literal([1, 2]), BackRef(3, 3)];
    assert Round(inp, 512, g) == Some(g');
    LastLiterals(g', [9, 8]);
  }

  lemma StaleMatch()
    ensures |Sample()| == 512 && Matches(Sample(), 503, 507) && MatchLen(Sample(), 3, 507) == 3
    ensures Sample()[510..] == [9, 8] && Sample()[505..] == [1, 2, 0, 0, 1, 9, 8]
  {
  }

  /** The octets of the tokens, from the tenth on those of the tokens after the zeroes. */
  lemma Written(rest: seq<Token>)
    requires rest != [] && ValidTokens(rest) && rest[0].Literal?
    ensures ValidTokens(TokensBefore() + rest)
    ensures var z := SerializeAll(TokensBefore() + rest);
      |z| == 9 + |SerializeAll(rest)| && z[9] == |rest[0].bytes| - 1
  {
    var ts := TokensBefore() + rest;
    assert ts[1..] == [BackRef(0, 264), BackRef(0, 239)] + rest;
    assert ts[1..][1..] == [BackRef(0, 239)] + rest;
    assert ts[1..][1..][1..] == rest;
    assert SerializeAll(ts[1..][1..]) == Serialize(BackRef(0, 239)) + SerializeAll(rest);
    assert SerializeAll(ts) == Serialize(ts[0]) + (Serialize(ts[1..][0]) + SerializeAll(ts[1..][1..]));
    assert SerializeAll(rest) == Serialize(rest[0]) + SerializeAll(rest[1..]);
  }

  lemma FromTable(m: seq<int>, rest: seq<Token>)
    requires |m| == HSIZE && m[7712] == 0 && m[64] == 0
    requires m[8191] == 0 ==> rest == [Literal([1, 2, 0, 0, 1, 9, 8])]
    requires m[8191] == 503 ==> rest == [Literal([1, 2]), BackRef(3, 3), Literal([9, 8])]
    requires m[8191] == 0 || m[8191] == 503
    ensures ValidTokens(TokensBefore() + rest) && Compressed(Sample(), 512, m) == Some(SerializeAll(TokensBefore() + rest))
  {
    hide Greedily, Sample, SerializeAll;
    SampleAt(0);
    var tab := ThroughZeros(m);
    var tab' := AfterZeros(m, tab);
    if m[8191] == 0 {
      RestCleared(tab');
    } else {
      RestStale(tab');
      assert TokensBefore() + [Literal([1, 2]), BackRef(3, 3)] + [Literal([9, 8])] == TokensBefore() + rest;
    }
  }

  /** The same input becomes different octets with a cleared table and with a stale one. */
  lemma TablesMatter()
    ensures |Sample()| == 512
    ensures var (a, b) := (Compressed(Sample(), 512, Cleared()), Compressed(Sample(), 512, Stale()));
      a.Some? && b.Some? && |a.value| == |b.value| == 17 && a.value[9] == 6 && b.value[9] == 1
  {
    SampleAt(0);
    hide Greedily, Sample, Compressed;
    var r1 := [Literal([1, 2, 0, 0, 1, 9, 8])];
    var r2 := [Literal([1, 2]), BackRef(3, 3), Literal([9, 8])];
    FromTable(Cleared(), r1);
    FromTable(Stale(), r2);
    assert r1[1..] == [];
    assert r2[1..][1..][1..] == [];
    assert |SerializeAll(r1)| == 8;
    assert |SerializeAll(r2[1..][1..])| == 3;
    assert |SerializeAll(r2[1..])| == 5;
    assert |SerializeAll(r2)| == 8;
    hide SerializeAll;
    Written(r1);
    Written(r2);
  }
}
