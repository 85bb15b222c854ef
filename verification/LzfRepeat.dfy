/** When lzf_compress (crypto/lzf.c) gives the same octets for the same input, whatever an
    earlier use has left in its hash table. */
module LzfRepeat {
  import opened Common
  import opened LzfFormat
  import opened LzfGreedy

  // ---- Different tokens are different octets ----

  lemma SameHead(t: Token, u: Token, a: Bytes, b: Bytes)
    requires ValidToken(t) && ValidToken(u) && Serialize(t) + a == Serialize(u) + b
    ensures t == u && a == b
  {
    var (s, r) := (Serialize(t), Serialize(u));
    assert (s + a)[0] == s[0] && (r + b)[0] == r[0];
    assert (s + a)[1] == s[1] && (r + b)[1] == r[1];
    assert |s| == |r|;
    assert s == (s + a)[..|s|] && r == (r + b)[..|s|];
    assert a == (s + a)[|s|..] && b == (r + b)[|s|..];
    if t.Literal? {
      assert t.bytes == s[1..] && u.bytes == r[1..];
    }
  }

  lemma {:induction false} SerializeInjective(ts: seq<Token>, us: seq<Token>)
    requires ValidTokens(ts) && ValidTokens(us) && SerializeAll(ts) == SerializeAll(us)
    ensures ts == us
  {
    if ts != [] && us != [] {
      SameHead(ts[0], us[0], SerializeAll(ts[1..]), SerializeAll(us[1..]));
      SerializeInjective(ts[1..], us[1..]);
      assert ts == [ts[0]] + ts[1..] && us == [us[0]] + us[1..];
    }
  }

  // ---- Tokens are only added ----

  /** The tokens end up in front, and then the run being built, which may have grown. */
  ghost predicate Grows(g: At, r: seq<Token>) {
    && |g.ts| <= |r| && r[..|g.ts|] == g.ts
    && (g.lit > 0 ==> |g.ts| < |r| && r[|g.ts|].Literal? && |r[|g.ts|].bytes| >= g.lit)
  }

  lemma LiterallyGrows(inp: Bytes, g: At, r: seq<Token>)
    requires g.lit <= g.ip < |inp| && Grows(Literally(inp, g), r)
    ensures Grows(g, r) && |g.ts| < |r| && r[|g.ts|].Literal? && |r[|g.ts|].bytes| > g.lit
  {
    var g' := Literally(inp, g);
    assert r[..|g.ts|] == r[..|g'.ts|][..|g.ts|];
    if g'.lit == 0 {
      assert r[|g.ts|] == r[..|g'.ts|][|g.ts|];
    }
  }

  lemma MatchedGrows(inp: Bytes, g: At, off: nat, r: seq<Token>)
    requires g.lit <= g.ip && off < g.ip && g.ip + 4 < |inp| && off < MAX_OFF && g.op >= 1
    requires Grows(Matched(inp, g, off), r)
    ensures Grows(g, r)
    ensures var k := |g.ts|;
      if g.lit == 0 then k < |r| && r[k].BackRef? && r[k].off == off
      else k + 1 < |r| && r[k].Literal? && |r[k].bytes| == g.lit && r[k + 1].BackRef? && r[k + 1].off == off
  {
    hide MatchLen, Serialize;
    var ts := Matched(inp, g, off).ts;
    assert r[..|g.ts|] == r[..|ts|][..|g.ts|];
    assert forall i :: 0 <= i < |ts| ==> r[i] == r[..|ts|][i];
  }

  /** What a round decides: a literal, or a match some octets back. */
  ghost predicate Decides(inp: Bytes, g: At, r: seq<Token>)
    requires |g.tab| == HSIZE && g.ip < |inp| - 2
  {
    var (k, ref) := (|g.ts|, Candidate(inp, g));
    if !Matches(inp, ref, g.ip) then k < |r| && r[k].Literal? && |r[k].bytes| > g.lit
    else if g.lit == 0 then k < |r| && r[k].BackRef? && r[k].off == g.ip - ref - 1
    else k + 1 < |r| && r[k].Literal? && |r[k].bytes| == g.lit && r[k + 1].BackRef? && r[k + 1].off == g.ip - ref - 1
  }

  lemma RoundGrows(inp: Bytes, room: nat, g: At, r: seq<Token>)
    requires AtOk(inp, g) && g.ip < |inp| - 2 && Round(inp, room, g).Some? && Grows(Round(inp, room, g).value, r)
    ensures Grows(g, r) && Decides(inp, g, r)
  {
    hide NextHash, First, Slot, Matches, MatchLen, Serialize;
    var (g1, ref) := (LookedUp(inp, g), Candidate(inp, g));
    if Matches(inp, ref, g.ip) {
      MatchBounds(inp, ref, g.ip);
      assert Grows(Matched(inp, g1, g.ip - ref - 1), r);
      MatchedGrows(inp, g1, g.ip - ref - 1, r);
    } else {
      LiterallyGrows(inp, g1, r);
    }
  }

  lemma MatchBounds(inp: Bytes, ref: int, ip: nat)
    requires Matches(inp, ref, ip)
    ensures 0 < ref < ip && ip - ref - 1 < MAX_OFF && ip + 4 < |inp|
  {
  }

  lemma {:induction false} LastGrows(inp: Bytes, g: At)
    requires AtOk(inp, g)
    ensures Grows(g, Last(inp, g.ip, g.lit, g.ts))
    decreases |inp| - g.ip
  {
    if g.ip < |inp| {
      var g' := Literally(inp, g);
      LastGrows(inp, g');
      LiterallyGrows(inp, g, Last(inp, g'.ip, g'.lit, g'.ts));
    }
  }

  lemma {:induction false} GreedilyGrows(inp: Bytes, room: nat, g: At)
    requires AtOk(inp, g) && Greedily(inp, room, g).Some?
    ensures Grows(g, Greedily(inp, room, g).value)
    ensures g.ip < |inp| - 2 ==> Decides(inp, g, Greedily(inp, room, g).value)
    decreases |inp| - g.ip
  {
    hide Round, Last, Grows, Decides;
    if g.ip >= |inp| - 2 {
      LastGrows(inp, g);
    } else {
      RoundOk(inp, room, g);
      GreedilyGrows(inp, room, Round(inp, room, g).value);
      RoundGrows(inp, room, g, Greedily(inp, room, g).value);
    }
  }

  // ---- Two tables ----

  /** The slot that a round looks up. */
  function Looked(inp: Bytes, g: At): (r: nat)
    requires g.ip < |inp| - 2
    ensures r < HSIZE
  {
    Slot(NextHash(g.h, inp, g.ip))
  }

  /** A lookup at ip leads to the same decision. */
  predicate SameChoice(inp: Bytes, ref: int, ref': int, ip: nat) {
    ref == ref' || (!Matches(inp, ref, ip) && !Matches(inp, ref', ip))
  }

  /** What a round has entered last. */
  function Latest(inp: Bytes, g: At, r: At): int {
    if r.ip >= |inp| - 2 then g.ip else r.ip - 1
  }

  /** A round writes to the slot it looks up, and to that of the hash it ends with. */
  lemma RoundTable(inp: Bytes, room: nat, g: At)
    requires AtOk(inp, g) && g.ip < |inp| - 2 && Round(inp, room, g).Some?
    ensures var r := Round(inp, room, g).value;
      r.tab == g.tab[Looked(inp, g) := g.ip][Slot(r.h) := Latest(inp, g, r)]
  {
    hide NextHash, First, Slot, Matches, MatchLen, Serialize;
    var r := Round(inp, room, g).value;
    var tab := g.tab[Looked(inp, g) := g.ip];
    assert LookedUp(inp, g).tab == tab;
    if Slot(r.h) == Looked(inp, g) && r.tab == tab {
      assert tab == tab[Looked(inp, g) := g.ip];
    }
    if Matches(inp, Candidate(inp, g), g.ip) {
      MatchBounds(inp, Candidate(inp, g), g.ip);
    }
  }

  /** Nothing else that a round does depends on the rest of the table. */
  lemma RoundSame(inp: Bytes, room: nat, g: At, tab: seq<int>)
    requires AtOk(inp, g) && g.ip < |inp| - 2 && |tab| == HSIZE
    requires SameChoice(inp, g.tab[Looked(inp, g)], tab[Looked(inp, g)], g.ip)
    ensures var (r, r') := (Round(inp, room, g), Round(inp, room, g.(tab := tab)));
      (r.None? <==> r'.None?) && (r.Some? ==> r'.value == r.value.(tab := r'.value.tab))
  {
    hide NextHash, First, Slot, MatchLen, Serialize, Close;
  }

  /** The slots written so far, after one more round. */
  ghost function Written(inp: Bytes, room: nat, g: At, w: set<nat>): set<nat>
    requires AtOk(inp, g) && g.ip < |inp| - 2 && Round(inp, room, g).Some?
  {
    w + {Looked(inp, g), Slot(Round(inp, room, g).value.h)}
  }

  /** The tables agree on the written slots, and on the others the second one is b. */
  ghost predicate Beside(tab: seq<int>, tab': seq<int>, b: seq<int>, w: set<nat>) {
    && |tab| == |tab'| == |b| == HSIZE
    && forall j :: 0 <= j < HSIZE ==> tab'[j] == if j in w then tab[j] else b[j]
  }

  lemma RoundBeside(inp: Bytes, room: nat, g: At, tab: seq<int>, b: seq<int>, w: set<nat>)
    requires AtOk(inp, g) && g.ip < |inp| - 2 && Beside(g.tab, tab, b, w) && Round(inp, room, g).Some?
    requires Looked(inp, g) in w || SameChoice(inp, g.tab[Looked(inp, g)], b[Looked(inp, g)], g.ip)
    ensures var (r, r') := (Round(inp, room, g), Round(inp, room, g.(tab := tab)));
      r'.Some? && r'.value == r.value.(tab := r'.value.tab) && Beside(r.value.tab, r'.value.tab, b, Written(inp, room, g, w))
  {
    hide Round, Looked, Matches, Slot;
    RoundSame(inp, room, g, tab);
    RoundTable(inp, room, g);
    RoundTable(inp, room, g.(tab := tab));
    assert Looked(inp, g.(tab := tab)) == Looked(inp, g) by { LookedIs(inp, g, tab); }
  }

  lemma LookedIs(inp: Bytes, g: At, tab: seq<int>)
    requires g.ip < |inp| - 2
    ensures Looked(inp, g.(tab := tab)) == Looked(inp, g)
  {
  }

  /** In the run from g, each round's slot was written before, or b leads to the same decision
      there. */
  ghost predicate Alike(inp: Bytes, room: nat, g: At, b: seq<int>, w: set<nat>)
    requires AtOk(inp, g) && |b| == HSIZE
    decreases |inp| - g.ip
  {
    g.ip >= |inp| - 2 ||
    (var i := Looked(inp, g);
     && (i in w || SameChoice(inp, g.tab[i], b[i], g.ip))
     && (Round(inp, room, g).Some? ==>
           (RoundOk(inp, room, g);
            Alike(inp, room, Round(inp, room, g).value, b, Written(inp, room, g, w)))))
  }

  lemma Diverge(inp: Bytes, room: nat, g: At, tab: seq<int>)
    requires AtOk(inp, g) && g.ip < |inp| - 2 && |tab| == HSIZE
    requires !SameChoice(inp, g.tab[Looked(inp, g)], tab[Looked(inp, g)], g.ip)
    requires Greedily(inp, room, g).Some?
    ensures Greedily(inp, room, g) != Greedily(inp, room, g.(tab := tab))
  {
    hide Greedily, Matches, NextHash, Slot;
    GreedilyGrows(inp, room, g);
    if Greedily(inp, room, g.(tab := tab)).Some? {
      GreedilyGrows(inp, room, g.(tab := tab));
    }
  }

  lemma {:induction false} AlikeIff(inp: Bytes, room: nat, g: At, tab: seq<int>, b: seq<int>, w: set<nat>)
    requires AtOk(inp, g) && Beside(g.tab, tab, b, w)
    ensures Alike(inp, room, g, b, w) ==> Greedily(inp, room, g) == Greedily(inp, room, g.(tab := tab))
    ensures !Alike(inp, room, g, b, w) && (Greedily(inp, room, g).Some? || Greedily(inp, room, g.(tab := tab)).Some?) ==>
              Greedily(inp, room, g) != Greedily(inp, room, g.(tab := tab))
    decreases |inp| - g.ip
  {
    hide Round, Last, Looked, SameChoice, Written;
    if g.ip < |inp| - 2 {
      var i := Looked(inp, g);
      LookedIs(inp, g, tab);
      if i in w || SameChoice(inp, g.tab[i], b[i], g.ip) {
        ChoiceBeside(inp, g, tab, b, w);
        RoundSame(inp, room, g, tab);
        if Round(inp, room, g).Some? {
          RoundOk(inp, room, g);
          RoundBeside(inp, room, g, tab, b, w);
          var (r, r') := (Round(inp, room, g).value, Round(inp, room, g.(tab := tab)).value);
          AlikeIff(inp, room, r, r'.tab, b, Written(inp, room, g, w));
        }
      } else if Greedily(inp, room, g).Some? {
        Diverge(inp, room, g, tab);
      }
    }
  }

  lemma ChoiceBeside(inp: Bytes, g: At, tab: seq<int>, b: seq<int>, w: set<nat>)
    requires AtOk(inp, g) && g.ip < |inp| - 2 && Beside(g.tab, tab, b, w)
    requires Looked(inp, g) in w || SameChoice(inp, g.tab[Looked(inp, g)], b[Looked(inp, g)], g.ip)
    ensures SameChoice(inp, g.tab[Looked(inp, g)], tab[Looked(inp, g)], g.ip)
  {
  }

  lemma StartBeside(inp: Bytes, a: seq<int>, b: seq<int>)
    requires |a| == HSIZE && |b| == HSIZE
    ensures AtOk(inp, Start(inp, a)) && Beside(Start(inp, a).tab, b[0 := -1], b, {0})
    ensures Start(inp, a).(tab := b[0 := -1]) == Start(inp, b)
  {
  }

  /** Exactly when two tables give the same result, if one of them gives any: at each lookup of
      a slot that the run has not written before, they lead to the same decision. */
  lemma TablesAgreeIff(inp: Bytes, room: nat, a: seq<int>, b: seq<int>)
    requires |a| == HSIZE && |b| == HSIZE
    ensures AtOk(inp, Start(inp, a))
    ensures Alike(inp, room, Start(inp, a), b, {0}) ==> Compressed(inp, room, a) == Compressed(inp, room, b)
    ensures Compressed(inp, room, a).Some? || Compressed(inp, room, b).Some? ==>
              (Alike(inp, room, Start(inp, a), b, {0}) <==> Compressed(inp, room, a) == Compressed(inp, room, b))
  {
    hide Greedily, Alike, Start;
    StartBeside(inp, a, b);
    AlikeIff(inp, room, Start(inp, a), b[0 := -1], b, {0});
    var (r, r') := (Greedily(inp, room, Start(inp, a)), Greedily(inp, room, Start(inp, b)));
    if r.Some? && r'.Some? && SerializeAll(r.value) == SerializeAll(r'.value) {
      SerializeInjective(r.value, r'.value);
    }
  }

  // ---- All tables ----

  ghost predicate NoMatch(inp: Bytes, ip: nat) {
    forall p: int :: !Matches(inp, p, ip)
  }

  /** In the run from g, each round's slot was written before, or there is no place in the
      input that it could name to make a match. */
  ghost predicate Undisturbed(inp: Bytes, room: nat, g: At, w: set<nat>)
    requires AtOk(inp, g)
    decreases |inp| - g.ip
  {
    g.ip >= |inp| - 2 ||
    ((Looked(inp, g) in w || NoMatch(inp, g.ip)) &&
     (Round(inp, room, g).Some? ==>
        (RoundOk(inp, room, g);
         Undisturbed(inp, room, Round(inp, room, g).value, Written(inp, room, g, w)))))
  }

  lemma {:induction false} UndisturbedAlike(inp: Bytes, room: nat, g: At, b: seq<int>, w: set<nat>)
    requires AtOk(inp, g) && |b| == HSIZE
    requires Undisturbed(inp, room, g, w)
    ensures Alike(inp, room, g, b, w)
    decreases |inp| - g.ip
  {
    hide Round, Looked, Written;
    if g.ip < |inp| - 2 && Round(inp, room, g).Some? {
      RoundOk(inp, room, g);
      UndisturbedAlike(inp, room, Round(inp, room, g).value, b, Written(inp, room, g, w));
    }
  }

  /** If there is such a place, some table names it. */
  lemma {:induction false} DisturbedUnlike(inp: Bytes, room: nat, g: At, w: set<nat>) returns (b: seq<int>)
    requires AtOk(inp, g) && !Undisturbed(inp, room, g, w)
    ensures |b| == HSIZE && !Alike(inp, room, g, b, w)
    decreases |inp| - g.ip
  {
    hide Round, Looked, Written, Matches;
    var i := Looked(inp, g);
    if i !in w && !NoMatch(inp, g.ip) {
      var p :| Matches(inp, p, g.ip);
      NoMatchAtStart(inp, g.ip);
      b := g.tab[i := if Matches(inp, g.tab[i], g.ip) then 0 else p];
    } else {
      RoundOk(inp, room, g);
      b := DisturbedUnlike(inp, room, Round(inp, room, g).value, Written(inp, room, g, w));
    }
  }

  lemma NoMatchAtStart(inp: Bytes, ip: nat)
    ensures !Matches(inp, 0, ip)
  {
  }

  /** What a caller keeps of the result: it must be shorter than `limit`. */
  ghost function Shortened(inp: Bytes, room: nat, limit: nat, mem: seq<int>): Option<Bytes>
    requires |mem| == HSIZE
  {
    var z := Compressed(inp, room, mem);
    if z.Some? && |z.value| < limit then z else None
  }

  ghost predicate Fits(r: Option<seq<Token>>, limit: nat)
    requires r.Some? ==> ValidTokens(r.value)
  {
    r.Some? && |SerializeAll(r.value)| < limit
  }

  /** From g, some way of filling the slots that have not been written leads to a result shorter
      than `limit`. */
  ghost predicate MayFit(inp: Bytes, room: nat, limit: nat, g: At, w: set<nat>)
    requires AtOk(inp, g)
    decreases |inp| - g.ip
  {
    if g.ip >= |inp| - 2 then Fits(Greedily(inp, room, g), limit)
    else
      exists ref: int ::
        && (Looked(inp, g) in w ==> ref == g.tab[Looked(inp, g)])
        && (var g' := Filled(inp, g, ref);
            Round(inp, room, g').Some? &&
            (RoundOk(inp, room, g');
             MayFit(inp, room, limit, Round(inp, room, g').value, Written(inp, room, g', w))))
  }

  /** The slot of the next lookup, filled. */
  ghost function Filled(inp: Bytes, g: At, ref: int): (r: At)
    requires AtOk(inp, g) && g.ip < |inp| - 2
    ensures AtOk(inp, r) && r.ip == g.ip && Looked(inp, r) == Looked(inp, g) && r == g.(tab := r.tab)
  {
    g.(tab := g.tab[Looked(inp, g) := ref])
  }

  ghost predicate SameOn(a: seq<int>, b: seq<int>, w: set<nat>) {
    |a| == |b| == HSIZE && forall j :: j in w && j < HSIZE ==> a[j] == b[j]
  }

  lemma RoundSameOn(inp: Bytes, room: nat, g: At, tab: seq<int>, w: set<nat>)
    requires AtOk(inp, g) && g.ip < |inp| - 2 && SameOn(g.tab, tab, w) && g.tab[Looked(inp, g)] == tab[Looked(inp, g)]
    ensures var (r, r') := (Round(inp, room, g), Round(inp, room, g.(tab := tab)));
      && (r.None? <==> r'.None?)
      && (r.Some? ==> r'.value == r.value.(tab := r'.value.tab) && SameOn(r.value.tab, r'.value.tab, Written(inp, room, g, w)))
  {
    hide Round, Looked, Matches, Slot;
    RoundSame(inp, room, g, tab);
    if Round(inp, room, g).Some? {
      RoundTable(inp, room, g);
      RoundTable(inp, room, g.(tab := tab));
      LookedIs(inp, g, tab);
    }
  }

  /** A table that leads to a short result shows a way. */
  lemma {:induction false} FitIsFound(inp: Bytes, room: nat, limit: nat, g: At, tab: seq<int>, w: set<nat>)
    requires AtOk(inp, g) && SameOn(g.tab, tab, w) && Fits(Greedily(inp, room, g.(tab := tab)), limit)
    ensures MayFit(inp, room, limit, g, w)
    decreases |inp| - g.ip
  {
    hide Round, Looked, Last, Written, SerializeAll;
    if g.ip < |inp| - 2 {
      var i := Looked(inp, g);
      LookedIs(inp, g, tab);
      var (g', t) := (Filled(inp, g, tab[i]), g.(tab := tab));
      RoundSameOn(inp, room, g', tab, w);
      assert g'.(tab := tab) == t;
      RoundOk(inp, room, g');
      var (r, r') := (Round(inp, room, g').value, Round(inp, room, t).value);
      FitIsFound(inp, room, limit, r, r'.tab, Written(inp, room, g', w));
    }
  }

  /** A way leads to a table. */
  lemma {:induction false} FindFit(inp: Bytes, room: nat, limit: nat, g: At, w: set<nat>) returns (tab: seq<int>)
    requires AtOk(inp, g) && MayFit(inp, room, limit, g, w)
    ensures SameOn(g.tab, tab, w) && Fits(Greedily(inp, room, g.(tab := tab)), limit)
    decreases |inp| - g.ip
  {
    hide Round, Looked, Last, Fits, Greedily;
    if g.ip >= |inp| - 2 {
      tab := g.tab;
    } else {
      var i := Looked(inp, g);
      var ref :| (i in w ==> ref == g.tab[i]) && Round(inp, room, Filled(inp, g, ref)).Some? &&
                 (RoundOk(inp, room, Filled(inp, g, ref));
                  MayFit(inp, room, limit, Round(inp, room, Filled(inp, g, ref)).value, Written(inp, room, Filled(inp, g, ref), w)));
      var g' := Filled(inp, g, ref);
      RoundOk(inp, room, g');
      var r := Round(inp, room, g').value;
      var next := FindFit(inp, room, limit, r, Written(inp, room, g', w));
      tab := Before(inp, g', r, next);
      BackOneRound(inp, room, g', next, w);
    }
  }

  /** The table before a round that leads to the table `next`. */
  ghost function Before(inp: Bytes, g: At, r: At, next: seq<int>): (tab: seq<int>)
    requires AtOk(inp, g) && g.ip < |inp| - 2 && |next| == HSIZE
    ensures |tab| == HSIZE
  {
    next[Slot(r.h) := g.tab[Slot(r.h)]][Looked(inp, g) := g.tab[Looked(inp, g)]]
  }

  lemma BackOneRound(inp: Bytes, room: nat, g: At, next: seq<int>, w: set<nat>)
    requires AtOk(inp, g) && g.ip < |inp| - 2 && Round(inp, room, g).Some?
    requires SameOn(Round(inp, room, g).value.tab, next, Written(inp, room, g, w))
    ensures var (r, tab) := (Round(inp, room, g).value, Before(inp, g, Round(inp, room, g).value, next));
      && SameOn(g.tab, tab, w)
      && Round(inp, room, g.(tab := tab)) == Some(r.(tab := next))
      && Greedily(inp, room, g.(tab := tab)) == (RoundOk(inp, room, g); Greedily(inp, room, r.(tab := next)))
  {
    hide Round, Looked, Slot, Last;
    var r := Round(inp, room, g).value;
    var tab := Before(inp, g, r, next);
    RoundTable(inp, room, g);
    LookedIs(inp, g, tab);
    RoundSame(inp, room, g, tab);
    RoundTable(inp, room, g.(tab := tab));
    assert Round(inp, room, g.(tab := tab)).value.tab == next;
    RoundOk(inp, room, g.(tab := tab));
  }

  function Cleared(): (r: seq<int>)
    ensures |r| == HSIZE
  {
    seq(HSIZE, i => 0)
  }

  /** What decides whether the table matters, and can be told from the input alone. If a cleared
      table gives a result: that its run is not disturbed. If it does not: that no way of
      filling the table gives one. */
  ghost predicate Steady(inp: Bytes, room: nat, limit: nat) {
    StartOk(inp, Cleared());
    var g := Start(inp, Cleared());
    if Shortened(inp, room, limit, Cleared()).Some? then Undisturbed(inp, room, g, {0})
    else inp == [] || room == 0 || !MayFit(inp, room, limit, g, {0})
  }

  lemma StartOk(inp: Bytes, m: seq<int>)
    requires |m| == HSIZE
    ensures AtOk(inp, Start(inp, m))
  {
  }

  /** A table gives a short result only if there is a way to one. */
  lemma ShortMayFit(inp: Bytes, room: nat, limit: nat, m: seq<int>)
    requires |m| == HSIZE && inp != [] && room != 0
    ensures AtOk(inp, Start(inp, Cleared()))
    ensures Shortened(inp, room, limit, m).Some? ==> MayFit(inp, room, limit, Start(inp, Cleared()), {0})
  {
    hide Greedily, MayFit;
    StartBeside(inp, Cleared(), m);
    StartOk(inp, m);
    if Shortened(inp, room, limit, m).Some? {
      FitIsFound(inp, room, limit, Start(inp, Cleared()), m[0 := -1], {0});
    }
  }

  lemma MayFitShort(inp: Bytes, room: nat, limit: nat) returns (m: seq<int>)
    requires inp != [] && room != 0
    requires AtOk(inp, Start(inp, Cleared())) && MayFit(inp, room, limit, Start(inp, Cleared()), {0})
    ensures |m| == HSIZE && Shortened(inp, room, limit, m).Some?
  {
    hide Greedily, MayFit;
    m := FindFit(inp, room, limit, Start(inp, Cleared()), {0});
    assert m[0 := -1] == m;
    StartBeside(inp, Cleared(), m);
  }

  /** The same input gives the same result with every table, if and only if it is steady. */
  lemma SteadyIff(inp: Bytes, room: nat, limit: nat)
    ensures Steady(inp, room, limit) <==>
            forall a: seq<int>, b: seq<int> :: |a| == HSIZE && |b| == HSIZE ==>
              Shortened(inp, room, limit, a) == Shortened(inp, room, limit, b)
  {
    StartOk(inp, Cleared());
    if Steady(inp, room, limit) {
      forall a: seq<int> | |a| == HSIZE
        ensures Shortened(inp, room, limit, a) == Shortened(inp, room, limit, Cleared())
      {
        SteadyAgrees(inp, room, limit, a);
      }
    } else {
      var b := UnsteadyDiffers(inp, room, limit);
    }
  }

  lemma SteadyAgrees(inp: Bytes, room: nat, limit: nat, a: seq<int>)
    requires |a| == HSIZE && Steady(inp, room, limit)
    ensures Shortened(inp, room, limit, a) == Shortened(inp, room, limit, Cleared())
  {
    hide Undisturbed, MayFit, Alike;
    StartOk(inp, Cleared());
    if Shortened(inp, room, limit, Cleared()).Some? {
      UndisturbedAlike(inp, room, Start(inp, Cleared()), a, {0});
      TablesAgreeIff(inp, room, Cleared(), a);
    } else if inp != [] && room != 0 {
      ShortMayFit(inp, room, limit, a);
    }
  }

  lemma UnsteadyDiffers(inp: Bytes, room: nat, limit: nat) returns (b: seq<int>)
    requires !Steady(inp, room, limit)
    ensures |b| == HSIZE && Shortened(inp, room, limit, b) != Shortened(inp, room, limit, Cleared())
  {
    hide Undisturbed, MayFit, Alike;
    StartOk(inp, Cleared());
    if Shortened(inp, room, limit, Cleared()).Some? {
      b := DisturbedUnlike(inp, room, Start(inp, Cleared()), {0});
      TablesAgreeIff(inp, room, Cleared(), b);
    } else {
      b := MayFitShort(inp, room, limit);
    }
  }

  // ---- With room for anything ----

  /** The output is no longer than it may be for the input so far. */
  ghost predicate Bounded(inp: Bytes, g: At) {
    AtOk(inp, g) && g.lit < g.op && 32 * (g.op - g.lit - 1) <= 33 * (g.ip - g.lit)
  }

  lemma RoundBounded(inp: Bytes, room: nat, g: At)
    requires Bounded(inp, g) && g.ip < |inp| - 2 && room >= SizeLimit(|inp|) + 4
    ensures Round(inp, room, g).Some? && Bounded(inp, Round(inp, room, g).value)
  {
    hide NextHash, First, Slot, Matches, MatchLen;
    if Matches(inp, Candidate(inp, g), g.ip) {
      MatchBounds(inp, Candidate(inp, g), g.ip);
    }
    RoundOk(inp, room, g);
  }

  lemma {:induction false} Succeeds(inp: Bytes, room: nat, g: At)
    requires Bounded(inp, g) && room >= SizeLimit(|inp|) + 4
    ensures Greedily(inp, room, g).Some?
    decreases |inp| - g.ip
  {
    hide Round, Last;
    if g.ip < |inp| - 2 {
      RoundBounded(inp, room, g);
      RoundOk(inp, room, g);
      Succeeds(inp, room, Round(inp, room, g).value);
    }
  }

  /** With room for the longest output there is, the same input becomes the same octets with
      every table, if and only if the run from a cleared table is not disturbed. */
  lemma RepeatableIff(inp: Bytes, room: nat)
    requires inp != [] && room >= |inp| + |inp| / 32 + 4
    ensures AtOk(inp, Start(inp, Cleared()))
    ensures Undisturbed(inp, room, Start(inp, Cleared()), {0}) <==>
            forall a: seq<int>, b: seq<int> :: |a| == HSIZE && |b| == HSIZE ==>
              Compressed(inp, room, a) == Compressed(inp, room, b)
  {
    hide Undisturbed, MayFit, Greedily;
    StartOk(inp, Cleared());
    SteadyIff(inp, room, room + 1);
    Succeeds(inp, room, Start(inp, Cleared()));
    forall m: seq<int> | |m| == HSIZE
      ensures Shortened(inp, room, room + 1, m) == Compressed(inp, room, m)
    {
      if Compressed(inp, room, m).Some? {
        CompressedEncodes(inp, room, m);
      }
    }
  }

  // ---- Two tables that could have been cleared ----

  predicate Dead(inp: Bytes, ref: int) {
    ref <= 0 || ref >= |inp|
  }

  /** The tables differ only in slots that name no place inside the input. */
  ghost predicate SameLive(inp: Bytes, a: seq<int>, b: seq<int>) {
    |a| == |b| == HSIZE && forall i :: 0 <= i < HSIZE && a[i] != b[i] ==> Dead(inp, a[i]) && Dead(inp, b[i])
  }

  lemma {:induction false} LiveAlike(inp: Bytes, room: nat, g: At, a: seq<int>, b: seq<int>, w: set<nat>)
    requires AtOk(inp, g) && SameLive(inp, a, b) && forall j :: 0 <= j < HSIZE && j !in w ==> g.tab[j] == a[j]
    ensures Alike(inp, room, g, b, w)
    decreases |inp| - g.ip
  {
    hide Round, Looked, Slot;
    if g.ip < |inp| - 2 && Round(inp, room, g).Some? {
      RoundOk(inp, room, g);
      RoundTable(inp, room, g);
      LiveAlike(inp, room, Round(inp, room, g).value, a, b, Written(inp, room, g, w));
    }
  }

  /** Two tables that differ only in slots naming no place inside the input give the same result
      for it: clearing the whole table would make compression repeatable. */
  lemma ClearedTablesAgree(inp: Bytes, room: nat, a: seq<int>, b: seq<int>)
    requires SameLive(inp, a, b)
    ensures Compressed(inp, room, a) == Compressed(inp, room, b)
  {
    StartOk(inp, a);
    LiveAlike(inp, room, Start(inp, a), a, b, {0});
    TablesAgreeIff(inp, room, a, b);
  }
}
