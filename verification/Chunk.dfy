/**
 * Convergent encoding of chunks (libutil/chunk.c): compress if it pays, derive
 * the key from what is to be encrypted, encrypt, and tag the result.  The hash,
 * the block cipher and the compressors are parameters.
 */
module Chunk {
  import opened Common
  import opened Cbc
  import opened CipherCtx

  /** Bytes of a key used by the cipher; its block length. */
  const KEY_LEN: nat := 16
  const BLOCK_LEN: nat := 16
  const HASH_LEN: nat := 20

  datatype Suite = AesSha1 | UnknownSuite

  datatype Compression = NoCompression | Zlib | Lzf | UnknownCompression

  /** What the allocator left in the memory it hands out. */
  type Memory = seq<int>

  /** A codec may fail or not fit into the room it is given. What its compressor makes of a
      chunk may depend on the memory that its context was allocated in. */
  datatype Codec = Codec(compress: (Memory, Bytes, nat) -> Option<Bytes>, expand: (Bytes, nat) -> Option<Bytes>)

  datatype Primitives = Primitives(hash: Bytes -> Bytes, cipher: Bytes -> Block, zlib: Codec, lzf: Codec)

  ghost predicate IsCodec(c: Codec) {
    forall m: Memory, x: Bytes, room: nat :: c.compress(m, x, room).Some? ==>
      |c.compress(m, x, room).value| <= room && c.expand(c.compress(m, x, room).value, |x|) == Some(x)
  }

  /** The compressor does not look at memory that it did not set. */
  ghost predicate Repeatable(c: Codec) {
    forall m: Memory, m': Memory, x: Bytes, room: nat :: c.compress(m, x, room) == c.compress(m', x, room)
  }

  ghost predicate Sound(p: Primitives) {
    && (forall x: Bytes :: |p.hash(x)| == HASH_LEN)
    && (forall k: Bytes :: |k| == KEY_LEN ==> IsCipher(p.cipher(k)) && p.cipher(k).n == BLOCK_LEN)
    && IsCodec(p.zlib) && Repeatable(p.zlib) && IsCodec(p.lzf)
  }

  function CodecOf(p: Primitives, c: Compression): Codec
    requires c.Zlib? || c.Lzf?
  {
    if c.Zlib? then p.zlib else p.lzf
  }

  /** Unsigned 32-bit subtraction. */
  function Minus32(a: nat, b: nat): nat { (a - b) % 0x1_0000_0000 }

  /** What is encrypted instead of `x`, if compressing it is worthwhile. */
  function Packed(p: Primitives, m: Memory, c: Compression, x: Bytes): Option<Bytes> {
    if !(c.Zlib? || c.Lzf?) then None
    else
      var z := CodecOf(p, c).compress(m, x, |x|);
      if z.None? || |z.value| >= Minus32(|x|, BLOCK_LEN) then None else z
  }

  ghost function CipherOf(p: Primitives, key: Bytes): (c: Block)
    requires Sound(p) && |key| == HASH_LEN
    ensures IsCipher(c) && c.n == BLOCK_LEN
  {
    p.cipher(key[..KEY_LEN])
  }

  /** The encoding of `x`: what is encrypted, under which key, to what. */
  ghost predicate IsEncoding(p: Primitives, m: Memory, asked: Compression, x: Bytes, used: Compression, key: Bytes, tag: Bytes, y: Bytes)
    requires Sound(p)
  {
    var z := Packed(p, m, asked, x);
    && used == (if z.Some? then asked else NoCompression)
    && key == p.hash(if z.Some? then z.value else x)
    && tag == p.hash(y)
    && (z.None? ==> Whole(BLOCK_LEN, x) && y == CbcEnc(CipherOf(p, key), Zeroes(BLOCK_LEN), x))
    && (z.Some? ==> y == CbcEnc(CipherOf(p, key), Zeroes(BLOCK_LEN), Filled(BLOCK_LEN, z.value)))
  }

  /** When encoding succeeds. */
  ghost predicate Encodable(p: Primitives, m: Memory, asked: Compression, x: Bytes) {
    var z := Packed(p, m, asked, x);
    if z.Some? then |Filled(BLOCK_LEN, z.value)| <= |x| else WholeLength(BLOCK_LEN, |x|)
  }

  /** Every chunk of whole blocks, but for the empty one, can be encoded, however it is to be compressed. */
  lemma AlwaysEncodable(p: Primitives, m: Memory, asked: Compression, x: Bytes)
    requires 0 < |x| < 0x1_0000_0000 && |x| % BLOCK_LEN == 0
    ensures Encodable(p, m, asked, x)
  {
    var z := Packed(p, m, asked, x);
    if z.Some? {
      FilledLength(z.value);
    }
  }

  /** What decrypting gives, before the key is checked against it. */
  ghost function Payload(p: Primitives, c: Compression, y: Bytes, key: Bytes): Option<Bytes>
    requires Sound(p) && |key| == HASH_LEN
  {
    var cipher := CipherOf(p, key);
    if !c.NoCompression? then Message(cipher, Zeroes(BLOCK_LEN), y)
    else if Whole(BLOCK_LEN, y) then Some(CbcDec(cipher, Zeroes(BLOCK_LEN), y))
    else None
  }

  ghost function Decoding(p: Primitives, c: Compression, y: Bytes, key: Bytes, outlen: nat): Option<Bytes>
    requires Sound(p) && |key| == HASH_LEN
  {
    if c.UnknownCompression? || y == [] || |y| > outlen || (c.NoCompression? && |y| != outlen) then None
    else
      var z := Payload(p, c, y, key);
      if z.None? || |z.value| > outlen || p.hash(z.value) != key then None
      else if c.NoCompression? then z
      else
        var x := CodecOf(p, c).expand(z.value, outlen);
        if x.Some? && |x.value| == outlen then x else None
  }

  // ----- Properties -----

  /** A successful decode checked the key against the payload. */
  lemma DecodingIsKeyed(p: Primitives, c: Compression, y: Bytes, key: Bytes, outlen: nat)
    requires Sound(p) && |key| == HASH_LEN && Decoding(p, c, y, key, outlen).Some?
    ensures Payload(p, c, y, key).Some? && p.hash(Payload(p, c, y, key).value) == key
    ensures |Decoding(p, c, y, key, outlen).value| == outlen
  {
    hide Message, CbcDec, Sound;
  }

  lemma FilledLength(x: Bytes)
    ensures |x| < |Filled(BLOCK_LEN, x)| <= |x| + BLOCK_LEN && |Filled(BLOCK_LEN, x)| % BLOCK_LEN == 0
  {
  }

  /** An encoding is not longer than the chunk, and shorter if it is still marked compressed. */
  lemma EncodingShrinks(p: Primitives, m: Memory, asked: Compression, x: Bytes, used: Compression, key: Bytes, tag: Bytes, y: Bytes)
    requires Sound(p) && Encodable(p, m, asked, x) && IsEncoding(p, m, asked, x, used, key, tag, y) && |x| < 0x1_0000_0000
    ensures |y| <= |x| && (!used.NoCompression? ==> |y| < |x|)
  {
    hide CbcEnc, Sound, CipherOf;
    var z := Packed(p, m, asked, x);
    if z.Some? {
      FilledLength(z.value);
    }
  }

  lemma HashLength(p: Primitives, x: Bytes)
    requires Sound(p)
    ensures |p.hash(x)| == HASH_LEN
  {
  }

  lemma ExpandsBack(p: Primitives, m: Memory, c: Compression, x: Bytes, z: Bytes)
    requires Sound(p) && (c.Zlib? || c.Lzf?) && CodecOf(p, c).compress(m, x, |x|) == Some(z)
    ensures CodecOf(p, c).expand(z, |x|) == Some(x) && |z| <= |x|
  {
  }

  lemma PlainRoundTrip(p: Primitives, x: Bytes, key: Bytes)
    requires Sound(p) && Whole(BLOCK_LEN, x) && x != [] && key == p.hash(x)
    ensures var y := CbcEnc(CipherOf(p, key), Zeroes(BLOCK_LEN), x); Decoding(p, NoCompression, y, key, |x|) == Some(x)
  {
    hide CbcEnc, CbcDec, Sound, IsCipher, CipherOf, Whole;
    HashLength(p, x);
    CbcRoundTrip(CipherOf(p, key), Zeroes(BLOCK_LEN), x);
  }

  lemma PackedRoundTrip(p: Primitives, m: Memory, c: Compression, x: Bytes, z: Bytes, key: Bytes)
    requires Sound(p) && (c.Zlib? || c.Lzf?) && CodecOf(p, c).compress(m, x, |x|) == Some(z) && key == p.hash(z)
    requires |Filled(BLOCK_LEN, z)| <= |x|
    ensures var y := CbcEnc(CipherOf(p, key), Zeroes(BLOCK_LEN), Filled(BLOCK_LEN, z)); Decoding(p, c, y, key, |x|) == Some(x)
  {
    hide CbcEnc, Message, Sound, IsCipher, CipherOf, Filled;
    HashLength(p, z);
    MessageRoundTrip(CipherOf(p, key), Zeroes(BLOCK_LEN), z);
    FilledLength(z);
    ExpandsBack(p, m, c, x, z);
  }

  /**
   * Decoding an encoding, with its key and the compression it ended up with, gives
   * back the chunk, whatever memory the compressor found; but for the empty chunk,
   * whose encoding is refused.
   */
  lemma ChunkRoundTrip(p: Primitives, m: Memory, asked: Compression, x: Bytes, used: Compression, key: Bytes, tag: Bytes, y: Bytes)
    requires Sound(p) && Encodable(p, m, asked, x) && IsEncoding(p, m, asked, x, used, key, tag, y) && |x| < 0x1_0000_0000
    ensures Decoding(p, used, y, key, |x|) == Some(x) <==> x != []
  {
    hide CbcEnc, CipherOf, Filled, Sound;
    var z := Packed(p, m, asked, x);
    if z.Some? {
      FilledLength(z.value);
      PackedRoundTrip(p, m, asked, x, z.value, key);
    } else if x != [] {
      PlainRoundTrip(p, x, key);
    } else {
      HashLength(p, x);
      EmptyEncoding(CipherOf(p, key));
    }
  }

  lemma EmptyEncoding(c: Block)
    requires IsCipher(c) && c.n == BLOCK_LEN
    ensures Whole(c.n, []) && CbcEnc(c, Zeroes(BLOCK_LEN), []) == []
  {
  }

  /** The key is the digest of this. */
  function Plain(p: Primitives, m: Memory, asked: Compression, x: Bytes): Bytes {
    var z := Packed(p, m, asked, x);
    if z.Some? then z.value else x
  }

  /** Two encodings of a chunk are the same exactly if the compressor made the same of it. */
  lemma SameEncodingIff(p: Primitives, asked: Compression, x: Bytes, m: Memory, used: Compression, key: Bytes, tag: Bytes, y: Bytes,
                        m': Memory, used': Compression, key': Bytes, tag': Bytes, y': Bytes)
    requires Sound(p) && IsEncoding(p, m, asked, x, used, key, tag, y) && IsEncoding(p, m', asked, x, used', key', tag', y')
    ensures used == used' && key == key' && tag == tag' && y == y' <==> Packed(p, m, asked, x) == Packed(p, m', asked, x)
  {
    hide CbcEnc, CipherOf, Filled, Whole, IsCipher, Message;
    var (z, z') := (Packed(p, m, asked, x), Packed(p, m', asked, x));
    if z.Some? && z'.Some? && key == key' {
      MessageRoundTrip(CipherOf(p, key), Zeroes(BLOCK_LEN), z.value);
      MessageRoundTrip(CipherOf(p, key), Zeroes(BLOCK_LEN), z'.value);
    }
  }

  /** A chunk of whole blocks has an encoding, whatever the memory. */
  lemma HasEncoding(p: Primitives, m: Memory, asked: Compression, x: Bytes)
    returns (used: Compression, key: Bytes, tag: Bytes, y: Bytes)
    requires Sound(p) && |x| % BLOCK_LEN == 0
    ensures IsEncoding(p, m, asked, x, used, key, tag, y)
  {
    hide CbcEnc, CipherOf, Filled, IsCipher;
    var z := Packed(p, m, asked, x);
    key := p.hash(Plain(p, m, asked, x));
    used := if z.Some? then asked else NoCompression;
    y := CbcEnc(CipherOf(p, key), Zeroes(BLOCK_LEN), if z.Some? then Cbc.Filled(BLOCK_LEN, z.value) else x);
    tag := p.hash(y);
  }

  // ----- The operations -----

  method Encode(p: Primitives, m: Memory, suite: Suite, inp: array<u8>, out: array<u8>, asked: Compression)
    returns (ok: bool, outlen: nat, tag: Bytes, key: Bytes, used: Compression)
    requires Sound(p) && inp != out && inp.Length <= out.Length && inp.Length < 0x1_0000_0000
    modifies out
    ensures ok <==> suite.AesSha1? && !asked.UnknownCompression? && Encodable(p, m, asked, old(inp[..]))
    ensures ok ==> outlen <= out.Length && IsEncoding(p, m, asked, old(inp[..]), used, key, tag, out[..outlen])
    ensures ok ==> tag == p.hash(out[..outlen])
  {
    hide Sound, IsCipher, CbcEnc, Filled, Whole, WholeLength;
    outlen, tag, key, used := 0, [], [], asked;
    ghost var x := inp[..];
    if suite.UnknownSuite? || asked.UnknownCompression? {
      return false, outlen, tag, key, used;
    }
    var compressed: Option<Bytes> := None;
    if !asked.NoCompression? {
      compressed := CodecOf(p, asked).compress(m, inp[..], inp.Length);
      if compressed.None? || |compressed.value| >= Minus32(inp.Length, BLOCK_LEN) {
        used, compressed := NoCompression, None;
      }
    }
    assert compressed == Packed(p, m, asked, x);
    var payload := if compressed.Some? then compressed.value else inp[..];
    HashLength(p, payload);
    key := p.hash(payload);
    ghost var c := CipherOf(p, key);
    var ctx := new Context(p.cipher(key[..KEY_LEN]), true, None);
    if compressed.Some? {
      var buf := ToArray(compressed.value);
      var rc;
      assert buf[0..0 + buf.Length] == compressed.value;
      rc, outlen := ctx.FinalEncrypt(buf, 0, buf.Length, out, 0, inp.Length);
      ok := rc.Ok?;
    } else {
      assert inp[0..0 + inp.Length] == x;
      ok := ctx.Process(inp, 0, inp.Length, out, 0);
      outlen := inp.Length;
    }
    if ok {
      assert out[0..0 + outlen] == out[..outlen];
      tag := p.hash(out[..outlen]);
    }
  }

  method Decode(p: Primitives, suite: Suite, c: Compression, inp: array<u8>, key: Bytes, out: array<u8>, outlen: nat)
    returns (ok: bool)
    requires Sound(p) && |key| == HASH_LEN && inp != out && outlen <= out.Length
    modifies out
    ensures ok <==> suite.AesSha1? && Decoding(p, c, old(inp[..]), key, outlen).Some?
    ensures ok ==> out[..outlen] == Decoding(p, c, old(inp[..]), key, outlen).value
  {
    hide Sound, IsCipher, CbcDec, Message, WholeLength;
    if suite.UnknownSuite? || c.UnknownCompression? {
      return false;
    }
    if (c.NoCompression? && inp.Length != outlen) || inp.Length == 0 || inp.Length > outlen {
      return false;
    }
    ghost var (y, cipher) := (inp[..], CipherOf(p, key));
    assert inp[0..0 + inp.Length] == y;
    var ctx := new Context(p.cipher(key[..KEY_LEN]), false, None);
    if c.NoCompression? {
      ok := ctx.Process(inp, 0, inp.Length, out, 0);
      assert out[0..0 + outlen] == out[..outlen];
      ok := ok && p.hash(out[..outlen]) == key;
    } else {
      var compressed := new u8[outlen];
      var rc, len := ctx.FinalDecrypt(inp, 0, inp.Length, compressed, 0, outlen);
      if !rc.Ok? {
        return false;
      }
      assert compressed[0..0 + len] == compressed[..len];
      if p.hash(compressed[..len]) != key {
        return false;
      }
      var plain := CodecOf(p, c).expand(compressed[..len], outlen);
      ok := plain.Some? && |plain.value| == outlen;
      if ok {
        Copy(plain.value, out, 0);
        assert out[0..0 + outlen] == out[..outlen];
      }
    }
  }
}
