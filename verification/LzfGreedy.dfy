/** What lzf_compress (crypto/lzf.c) makes of its input: a function of the input, of the room
    for the output, and of what its hash table holds when it is called. */
module LzfGreedy {
  import opened Common
  import opened LzfFormat

  const HSIZE := 8192

  /** FRST, NEXT and IDX; `unsigned int` arithmetic. */
  function First(inp: Bytes, p: nat): nat
    requires p + 1 < |inp|
  {
    var hi: int := inp[p];
    hi * 256 + inp[p + 1]
  }

  function NextHash(h: nat, inp: Bytes, p: nat): nat
    requires p + 2 < |inp|
  {
    (h * 256) % 0x1_0000_0000 + inp[p + 2]
  }

  function Slot(h: nat): (r: nat)
    ensures r < HSIZE
  {
    (h / 2048 - h) % HSIZE
  }

  /** Whether the place a hash slot names can be used for a match at ip. */
  predicate Matches(inp: Bytes, ref: int, ip: nat) {
    && ref < ip && ip - ref - 1 < MAX_OFF && ip + 4 < |inp| && ref > 0
    && inp[ref] == inp[ip] && inp[ref + 1] == inp[ip + 1] && inp[ref + 2] == inp[ip + 2]
  }

  // ---- The length of a match ----

  /** How far a match may reach into `left` octets; the unrolled comparisons look at 19. */
  function MatchLimit(left: nat): (r: nat)
    requires left >= 5
    ensures 3 <= r <= MAX_REF && r <= left
  {
    var m := Min(left - 2, MAX_REF);
    if 16 < m < 19 then 19 else m
  }

  function Extent(inp: Bytes, off: nat, ip: nat, k: nat, limit: nat): (r: nat)
    requires off < ip && k <= limit && ip + limit <= |inp|
    ensures k <= r <= limit
    decreases limit - k
  {
    if k == limit || inp[ip + k] != inp[ip + k - off - 1] then k else Extent(inp, off, ip, k + 1, limit)
  }

  function MatchLen(inp: Bytes, off: nat, ip: nat): (r: nat)
    requires off < ip && ip + 4 < |inp|
    ensures 3 <= r <= MAX_REF && ip + r <= |inp|
  {
    Extent(inp, off, ip, 3, MatchLimit(|inp| - ip))
  }

  /** The match ends where the texts differ for the first time, or at the limit. */
  lemma {:induction false} ExtentIs(inp: Bytes, off: nat, ip: nat, k: nat, limit: nat, len: nat)
    requires off < ip && k <= len <= limit && ip + limit <= |inp|
    requires forall i :: ip + k <= i < ip + len ==> inp[i] == inp[i - off - 1]
    requires len < limit ==> inp[ip + len] != inp[ip + len - off - 1]
    ensures Extent(inp, off, ip, k, limit) == len
    decreases limit - k
  {
    if k < len {
      assert inp[ip + k] == inp[ip + k - off - 1];
      ExtentIs(inp, off, ip, k + 1, limit, len);
    }
  }

  // ---- The tokens ----

  /** The tokens once the run of the last `lit` literals is closed. */
  function Close(inp: Bytes, ip: nat, lit: nat, ts: seq<Token>): seq<Token>
    requires lit <= ip <= |inp|
  {
    if lit == 0 then ts else ts + [Literal(inp[ip - lit..ip])]
  }

  /** The state of the main loop: the hash table, the hash, the places in input and output, the
      number of literals in the run being built, and the tokens before it. */
  datatype At = At(tab: seq<int>, h: nat, ip: nat, op: nat, lit: nat, ts: seq<Token>)

  ghost predicate AtOk(inp: Bytes, g: At) {
    |g.tab| == HSIZE && g.lit <= g.ip <= |inp| && g.lit < MAX_LIT && g.op >= 1 && ValidTokens(g.ts)
  }

  /** One more literal. A full run is closed. */
  function Literally(inp: Bytes, g: At): At
    requires g.lit <= g.ip < |inp|
  {
    if g.lit + 1 == MAX_LIT
    then g.(ip := g.ip + 1, op := g.op + 2, lit := 0, ts := g.ts + [Literal(inp[g.ip - g.lit..g.ip + 1])])
    else g.(ip := g.ip + 1, op := g.op + 1, lit := g.lit + 1)
  }

  /** The place of the output when the header of an empty run is taken back. */
  function Reused(g: At): int {
    if g.lit == 0 then g.op - 1 else g.op
  }

  /** A match, which closes the run. */
  function Matched(inp: Bytes, g: At, off: nat): At
    requires g.lit <= g.ip && off < g.ip && g.ip + 4 < |inp| && off < MAX_OFF && g.op >= 1
  {
    var t := BackRef(off, MatchLen(inp, off, g.ip));
    g.(ip := g.ip + t.len, op := Reused(g) + |Serialize(t)| + 1, lit := 0, ts := Close(inp, g.ip, g.lit, g.ts) + [t])
  }

  /** The last octets are literals. */
  ghost function Last(inp: Bytes, ip: nat, lit: nat, ts: seq<Token>): (r: seq<Token>)
    requires lit <= ip <= |inp| && lit < MAX_LIT && ValidTokens(ts)
    ensures ValidTokens(r)
    decreases |inp| - ip
  {
    if ip == |inp| then Close(inp, ip, lit, ts)
    else
      var g := Literally(inp, At([], 0, ip, 1, lit, ts));
      Last(inp, g.ip, g.lit, g.ts)
  }

  /** The table after a match: its last place is entered. */
  function Entered(inp: Bytes, g: At): At
    requires |g.tab| == HSIZE && 1 <= g.ip < |inp| - 1
  {
    var h := NextHash(First(inp, g.ip - 1), inp, g.ip - 1);
    g.(h := h, tab := g.tab[Slot(h) := g.ip - 1])
  }

  /** The table and the hash when the place ip has been looked up and entered. */
  function LookedUp(inp: Bytes, g: At): At
    requires |g.tab| == HSIZE && g.ip < |inp| - 2
  {
    var h := NextHash(g.h, inp, g.ip);
    g.(h := h, tab := g.tab[Slot(h) := g.ip])
  }

  /** What the hash table holds for the place ip. */
  function Candidate(inp: Bytes, g: At): int
    requires |g.tab| == HSIZE && g.ip < |inp| - 2
  {
    g.tab[Slot(NextHash(g.h, inp, g.ip))]
  }

  /** One round of the main loop, or None if room runs out. */
  function Round(inp: Bytes, room: nat, g: At): (r: Option<At>)
    requires |g.tab| == HSIZE && g.lit <= g.ip < |inp| - 2 && g.op >= 1
  {
    var ref := Candidate(inp, g);
    if Matches(inp, ref, g.ip) then
      if Reused(g) + 4 >= room then None
      else
        var g' := Matched(inp, LookedUp(inp, g), g.ip - ref - 1);
        Some(if g'.ip >= |inp| - 2 then g' else Entered(inp, g'))
    else if g.op >= room then None
    else Some(Literally(inp, LookedUp(inp, g)))
  }

  lemma RoundOk(inp: Bytes, room: nat, g: At)
    requires AtOk(inp, g) && g.ip < |inp| - 2 && Round(inp, room, g).Some?
    ensures AtOk(inp, Round(inp, room, g).value) && g.ip < Round(inp, room, g).value.ip
  {
    hide NextHash, First, Slot;
  }

  /** The tokens that the main loop and what follows it make, or None if room runs out. */
  ghost function Greedily(inp: Bytes, room: nat, g: At): (r: Option<seq<Token>>)
    requires AtOk(inp, g)
    ensures r.Some? ==> ValidTokens(r.value)
    decreases |inp| - g.ip
  {
    if g.ip >= |inp| - 2 then if g.op + 3 > room then None else Some(Last(inp, g.ip, g.lit, g.ts))
    else if Round(inp, room, g).None? then None
    else
      RoundOk(inp, room, g);
      Greedily(inp, room, Round(inp, room, g).value)
  }

  /** The beginning: the memset clears just the first slot. */
  function Start(inp: Bytes, mem: seq<int>): At
    requires |mem| == HSIZE
  {
    At(mem[0 := -1], if |inp| > 1 then First(inp, 0) else 0, 0, 1, 0, [])
  }

  /** The most that n octets can take up, less the header of an unfinished run. */
  function SizeLimit(n: nat): nat { n + n / 32 }

  /** What lzf_compress writes, given a table with the contents `mem`. */
  ghost function Compressed(inp: Bytes, room: nat, mem: seq<int>): Option<Bytes>
    requires |mem| == HSIZE
  {
    if inp == [] || room == 0 then None
    else
      match Greedily(inp, room, Start(inp, mem))
      case None => None
      case Some(ts) => Some(SerializeAll(ts))
  }

  // ---- It is an encoding of the input ----

  /** The tokens stand for the input before the run being built, and fill the output before it. */
  ghost predicate Faithful(inp: Bytes, g: At) {
    && AtOk(inp, g)
    && IsEncoding(g.ts, SerializeAll(g.ts), inp[..g.ip - g.lit])
    && |SerializeAll(g.ts)| == g.op - g.lit - 1
  }

  lemma Appended(ts: seq<Token>, text: Bytes, t: Token, text': Bytes)
    requires ValidTokens(ts) && IsEncoding(ts, SerializeAll(ts), text) && ValidToken(t) && Expand(text, [t]) == Some(text')
    ensures ValidTokens(ts + [t]) && IsEncoding(ts + [t], SerializeAll(ts + [t]), text')
    ensures |SerializeAll(ts + [t])| == |SerializeAll(ts)| + |Serialize(t)|
  {
    SerializeAppend(ts, t);
    AppendToken(ts, SerializeAll(ts), text, t, text');
  }

  lemma RunAppended(inp: Bytes, ip: nat, lit: nat, ts: seq<Token>)
    requires 0 < lit <= MAX_LIT && lit <= ip <= |inp|
    requires ValidTokens(ts) && IsEncoding(ts, SerializeAll(ts), inp[..ip - lit])
    ensures var ts' := ts + [Literal(inp[ip - lit..ip])];
      ValidTokens(ts') && IsEncoding(ts', SerializeAll(ts'), inp[..ip]) && |SerializeAll(ts')| == |SerializeAll(ts)| + lit + 1
  {
    var t := Literal(inp[ip - lit..ip]);
    ExpandOne(inp[..ip - lit], t);
    assert inp[..ip - lit] + t.bytes == inp[..ip];
    Appended(ts, inp[..ip - lit], t, inp[..ip]);
  }

  lemma CloseFaithful(inp: Bytes, g: At)
    requires Faithful(inp, g)
    ensures var ts := Close(inp, g.ip, g.lit, g.ts);
      ValidTokens(ts) && IsEncoding(ts, SerializeAll(ts), inp[..g.ip]) && |SerializeAll(ts)| == Reused(g)
  {
    if g.lit > 0 {
      RunAppended(inp, g.ip, g.lit, g.ts);
    } else {
      assert inp[..g.ip - 0] == inp[..g.ip];
    }
  }

  lemma LiterallyFaithful(inp: Bytes, g: At)
    requires Faithful(inp, g) && g.ip < |inp|
    ensures Faithful(inp, Literally(inp, g))
  {
    hide IsEncoding, SerializeAll;
    if g.lit + 1 == MAX_LIT {
      assert g.ip + 1 - (g.lit + 1) == g.ip - g.lit;
      RunAppended(inp, g.ip + 1, g.lit + 1, g.ts);
      assert inp[..g.ip + 1 - 0] == inp[..g.ip + 1];
    }
  }

  lemma {:induction false} ExtentEqual(inp: Bytes, off: nat, ip: nat, k: nat, limit: nat)
    requires off < ip && k <= limit && ip + limit <= |inp|
    ensures forall i :: ip + k <= i < ip + Extent(inp, off, ip, k, limit) ==> inp[i] == inp[i - off - 1]
    decreases limit - k
  {
    if k < limit && inp[ip + k] == inp[ip + k - off - 1] {
      ExtentEqual(inp, off, ip, k + 1, limit);
    }
  }

  lemma MatchEqual(inp: Bytes, ref: int, ip: nat)
    requires Matches(inp, ref, ip)
    ensures var off := ip - ref - 1;
      CopyBack(inp[..ip], off, MatchLen(inp, off, ip)) == inp[..ip + MatchLen(inp, off, ip)]
  {
    hide Extent;
    var off := ip - ref - 1;
    ExtentEqual(inp, off, ip, 3, MatchLimit(|inp| - ip));
    assert forall i :: ip <= i < ip + 3 ==> inp[i] == inp[i - off - 1];
    MatchContinues(inp, ip, off, MatchLen(inp, off, ip));
  }

  lemma MatchedFaithful(inp: Bytes, g: At, ref: int)
    requires Faithful(inp, g) && Matches(inp, ref, g.ip)
    ensures Faithful(inp, Matched(inp, g, g.ip - ref - 1))
  {
    hide IsEncoding, SerializeAll, Serialize, CopyBack, MatchLen, Expand, Close;
    var off := g.ip - ref - 1;
    var t := BackRef(off, MatchLen(inp, off, g.ip));
    MatchEqual(inp, ref, g.ip);
    ExpandOne(inp[..g.ip], t);
    CloseFaithful(inp, g);
    Appended(Close(inp, g.ip, g.lit, g.ts), inp[..g.ip], t, inp[..g.ip + t.len]);
    assert inp[..g.ip + t.len - 0] == inp[..g.ip + t.len];
  }

  lemma RoundFaithful(inp: Bytes, room: nat, g: At)
    requires Faithful(inp, g) && g.ip < |inp| - 2 && Round(inp, room, g).Some?
    ensures Faithful(inp, Round(inp, room, g).value)
  {
    hide NextHash, First, Slot, Matches, Matched, Literally, IsEncoding, SerializeAll;
    var g' := LookedUp(inp, g);
    assert Faithful(inp, g');
    if Matches(inp, Candidate(inp, g), g.ip) {
      MatchedFaithful(inp, g', Candidate(inp, g));
    } else {
      LiterallyFaithful(inp, g');
    }
  }

  /** The last octets take at most one octet more than their number. */
  lemma {:induction false} LastFaithful(inp: Bytes, g: At)
    requires Faithful(inp, g) && |inp| - 2 <= g.ip
    ensures var ts := Last(inp, g.ip, g.lit, g.ts);
      IsEncoding(ts, SerializeAll(ts), inp) && |SerializeAll(ts)| <= g.op + (|inp| - g.ip) + if g.lit + (|inp| - g.ip) < MAX_LIT then 0 else 1
    decreases |inp| - g.ip
  {
    hide IsEncoding, SerializeAll;
    if g.ip == |inp| {
      CloseFaithful(inp, g);
      assert inp[..|inp|] == inp;
    } else {
      LiterallyFaithful(inp, g);
      LastFaithful(inp, Literally(inp, g));
    }
  }

  lemma {:induction false} GreedilyFaithful(inp: Bytes, room: nat, g: At)
    requires Faithful(inp, g) && Greedily(inp, room, g).Some?
    ensures var ts := Greedily(inp, room, g).value; IsEncoding(ts, SerializeAll(ts), inp) && |SerializeAll(ts)| <= room
    decreases |inp| - g.ip
  {
    hide IsEncoding, SerializeAll, Round, Last;
    if g.ip >= |inp| - 2 {
      LastFaithful(inp, g);
    } else {
      RoundOk(inp, room, g);
      RoundFaithful(inp, room, g);
      GreedilyFaithful(inp, room, Round(inp, room, g).value);
    }
  }

  /** Whatever the table held, what is written is an encoding of the input and fits. */
  lemma CompressedEncodes(inp: Bytes, room: nat, mem: seq<int>)
    requires |mem| == HSIZE && Compressed(inp, room, mem).Some?
    ensures inp != [] && Encodes(Compressed(inp, room, mem).value, inp) && |Compressed(inp, room, mem).value| <= room
  {
    var g := Start(inp, mem);
    assert IsEncoding(g.ts, SerializeAll(g.ts), inp[..0]);
    assert Faithful(inp, g);
    GreedilyFaithful(inp, room, g);
  }
}
