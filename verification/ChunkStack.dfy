/**
 * The chunk encoding over the primitives of the other modules: SHA-1 over any
 * compression function, AES over any substitution table with an inverse, and LZF.
 * Only zlib stays a parameter.
 */
module ChunkStack {
  import opened Common
  import opened Cbc
  import LzfFormat
  import LzfGreedy
  import LzfRepeat
  import LzfStale
  import Hash
  import AesCipher
  import Aes
  import AesBlock
  import opened Chunk

  type Sha1Step = (seq<Hash.u32>, Bytes) -> seq<Hash.u32>

  /** isrcry_compress_final for LZF, in either direction. The table is the memory. */
  ghost function LzfCompress(m: Memory, x: Bytes, room: nat): Option<Bytes> {
    if |m| == LzfGreedy.HSIZE then LzfGreedy.Compressed(x, room, m) else None
  }

  ghost function LzfExpand(z: Bytes, room: nat): Option<Bytes> {
    if z == [] then None
    else
      match LzfFormat.Decode(z, room)
      case Ok(text) => Some(text)
      case _ => None
  }

  ghost function LzfCodec(): Codec {
    Codec((m, x, room) => LzfCompress(m, x, room), (z, room) => LzfExpand(z, room))
  }

  lemma LzfIsCodec()
    ensures IsCodec(LzfCodec())
  {
    var c := LzfCodec();
    forall m: Memory, x: Bytes, room: nat | c.compress(m, x, room).Some?
      ensures |c.compress(m, x, room).value| <= room && c.expand(c.compress(m, x, room).value, |x|) == Some(x)
    {
      LzfGreedy.CompressedEncodes(x, room, m);
      EncodingExpands(LzfGreedy.Compressed(x, room, m).value, x);
    }
  }

  lemma EncodingExpands(z: Bytes, x: Bytes)
    requires LzfFormat.Encodes(z, x) && x != []
    ensures LzfExpand(z, |x|) == Some(x)
  {
    var ts :| LzfFormat.IsEncoding(ts, z, x);
    assert ts != [];
    assert z == LzfFormat.Serialize(ts[0]) + LzfFormat.SerializeAll(ts[1..]);
    LzfFormat.DecodeIff(z, |x|, x);
  }

  ghost function AesOf(box: AesCipher.Box, key: Bytes): Block {
    if |key| == KEY_LEN then AesBlock.AesWith(box, key) else Block(BLOCK_LEN, b => b, b => b)
  }

  ghost function Stack(box: AesCipher.Box, f: Sha1Step, zlib: Codec): Primitives {
    Primitives(x => Hash.Digest(Hash.Sha1(f), x), key => AesOf(box, key), zlib, LzfCodec())
  }

  /** SHA-1, AES and LZF are what the chunk encoding needs. */
  lemma StackIsSound(box: AesCipher.Box, f: Sha1Step, zlib: Codec)
    requires AesCipher.IsInverse(box) && Hash.KeepsWords(Hash.Sha1(f)) && IsCodec(zlib) && Repeatable(zlib)
    ensures Sound(Stack(box, f, zlib)) && Stack(box, f, zlib).lzf == LzfCodec()
    ensures forall x: Bytes :: Stack(box, f, zlib).hash(x) == Hash.Digest(Hash.Sha1(f), x)
    ensures forall k: Bytes, b: Bytes :: |k| == 16 && |b| == 16 ==>
              AesBlock.Bits(Stack(box, f, zlib).cipher(k).enc(b)) == Aes.EncryptedBlock(box, AesBlock.Bits(k), AesBlock.Bits(b))
  {
    hide AesCipher.IsInverse, Hash.Digest, AesBlock.AesWith, IsCipher, IsCodec, Repeatable;
    var p := Stack(box, f, zlib);
    forall x: Bytes ensures |p.hash(x)| == HASH_LEN {
      Hash.DigestLength(Hash.Sha1(f), x);
    }
    forall k: Bytes | |k| == KEY_LEN ensures IsCipher(p.cipher(k)) && p.cipher(k).n == BLOCK_LEN {
      AesHasBlocks(box, k);
    }
    LzfIsCodec();
    hide AesBlock.Bits, Aes.EncryptedBlock;
    forall k: Bytes, b: Bytes | |k| == 16 && |b| == 16
      ensures AesBlock.Bits(p.cipher(k).enc(b)) == Aes.EncryptedBlock(box, AesBlock.Bits(k), AesBlock.Bits(b))
    {
      AesBlock.AesComputes(box, k, b);
    }
  }

  lemma AesHasBlocks(box: AesCipher.Box, key: Bytes)
    requires AesCipher.IsInverse(box) && |key| == KEY_LEN
    ensures IsCipher(AesOf(box, key)) && AesOf(box, key).n == BLOCK_LEN
  {
    hide AesCipher.IsInverse;
    AesBlock.AesIsCipher(box, key);
  }

  // ----- Convergence -----

  /** The whole outcome of encoding a chunk. */
  datatype Outcome = Outcome(used: Compression, key: Bytes, tag: Bytes, octets: Bytes)

  ghost predicate Yields(p: Primitives, m: Memory, asked: Compression, x: Bytes, e: Outcome)
    requires Sound(p)
  {
    |m| == LzfGreedy.HSIZE && IsEncoding(p, m, asked, x, e.used, e.key, e.tag, e.octets)
  }

  /** The chunk is one of which LZF makes the same whatever memory it finds; this can be told
      from the chunk alone. */
  ghost predicate Settled(x: Bytes) {
    LzfRepeat.Steady(x, |x|, Minus32(|x|, BLOCK_LEN))
  }

  lemma PackedIsShortened(p: Primitives, m: Memory, x: Bytes)
    requires p.lzf == LzfCodec() && |m| == LzfGreedy.HSIZE
    ensures Packed(p, m, Lzf, x) == LzfRepeat.Shortened(x, |x|, Minus32(|x|, BLOCK_LEN), m)
  {
    hide LzfGreedy.Compressed;
  }

  /** Encoding is convergent without compression, with zlib, and with LZF for settled chunks:
      one encoding, and so one key and one tag, whatever memory the compressor finds. */
  lemma Convergent(p: Primitives, asked: Compression, x: Bytes, m: Memory, e: Outcome, m': Memory, e': Outcome)
    requires Sound(p) && p.lzf == LzfCodec() && Yields(p, m, asked, x, e) && Yields(p, m', asked, x, e')
    requires asked.Lzf? ==> Settled(x)
    ensures e == e'
  {
    hide LzfRepeat.Steady, IsEncoding, LzfRepeat.Shortened;
    SameEncodingIff(p, asked, x, m, e.used, e.key, e.tag, e.octets, m', e'.used, e'.key, e'.tag, e'.octets);
    if asked.Lzf? {
      PackedIsShortened(p, m, x);
      PackedIsShortened(p, m', x);
      LzfRepeat.SteadyIff(x, |x|, Minus32(|x|, BLOCK_LEN));
    } else if asked.Zlib? {
      ZlibRepeats(p, m, m', x);
    }
  }

  lemma ZlibRepeats(p: Primitives, m: Memory, m': Memory, x: Bytes)
    requires Sound(p)
    ensures Packed(p, m, Zlib, x) == Packed(p, m', Zlib, x)
  {
    assert p.zlib.compress(m, x, |x|) == p.zlib.compress(m', x, |x|);
  }

  /** The keys of a chunk that is not settled are, for some two memories, the digests of
      different octets. */
  lemma UnsettledDiffers(p: Primitives, x: Bytes) returns (m: Memory, m': Memory)
    requires p.lzf == LzfCodec() && |x| % BLOCK_LEN == 0 && !Settled(x)
    ensures |m| == LzfGreedy.HSIZE && |m'| == LzfGreedy.HSIZE
    ensures Packed(p, m, Lzf, x) != Packed(p, m', Lzf, x) && Plain(p, m, Lzf, x) != Plain(p, m', Lzf, x)
  {
    hide LzfRepeat.Steady;
    m := LzfRepeat.Cleared();
    m' := LzfRepeat.UnsteadyDiffers(x, |x|, Minus32(|x|, BLOCK_LEN));
    PackedIsShortened(p, m, x);
    PackedIsShortened(p, m', x);
    PackedIsShorter(p, m, x);
    PackedIsShorter(p, m', x);
  }

  lemma PackedIsShorter(p: Primitives, m: Memory, x: Bytes)
    requires p.lzf == LzfCodec() && |m| == LzfGreedy.HSIZE && |x| % BLOCK_LEN == 0
    ensures Packed(p, m, Lzf, x).Some? ==> |Packed(p, m, Lzf, x).value| < |x|
  {
    hide LzfGreedy.Greedily;
  }

  /**
   * A chunk of whole blocks has one encoding with LZF, whatever memory the
   * compressor finds, if and only if it is settled.
   */
  lemma ConvergentIff(p: Primitives, x: Bytes)
    requires Sound(p) && p.lzf == LzfCodec() && |x| % BLOCK_LEN == 0
    ensures Settled(x) <==>
            forall m, m', e, e' :: Yields(p, m, Lzf, x, e) && Yields(p, m', Lzf, x, e') ==> e == e'
  {
    hide Settled, IsEncoding, Sound;
    if Settled(x) {
      forall m, m', e, e' | Yields(p, m, Lzf, x, e) && Yields(p, m', Lzf, x, e')
        ensures e == e'
      {
        Convergent(p, Lzf, x, m, e, m', e');
      }
    } else {
      var m, m' := UnsettledDiffers(p, x);
      var used, key, tag, y := HasEncoding(p, m, Lzf, x);
      var used', key', tag', y' := HasEncoding(p, m', Lzf, x);
      SameEncodingIff(p, Lzf, x, m, used, key, tag, y, m', used', key', tag', y');
      assert Yields(p, m, Lzf, x, Outcome(used, key, tag, y)) && Yields(p, m', Lzf, x, Outcome(used', key', tag', y'));
    }
  }

  /**
   * There are chunks that are not settled: one that is encoded under two keys, the
   * digests of two compressed forms that differ in an octet.
   */
  lemma LzfDiverges(p: Primitives) returns (x: Bytes, m: Memory, m': Memory, z: Bytes, z': Bytes)
    requires Sound(p) && p.lzf == LzfCodec()
    ensures Encodable(p, m, Lzf, x) && Encodable(p, m', Lzf, x) && z != z'
    ensures forall used, key, tag, y :: IsEncoding(p, m, Lzf, x, used, key, tag, y) ==> used == Lzf && key == p.hash(z)
    ensures forall used, key, tag, y :: IsEncoding(p, m', Lzf, x, used, key, tag, y) ==> used == Lzf && key == p.hash(z')
  {
    x, m, m' := LzfStale.Sample(), LzfRepeat.Cleared(), LzfStale.Stale();
    LzfStale.TablesMatter();
    hide LzfStale.Sample, LzfGreedy.Compressed, Sound;
    z, z' := Packed(p, m, Lzf, x).value, Packed(p, m', Lzf, x).value;
    FilledLength(z);
    FilledLength(z');
  }
}
