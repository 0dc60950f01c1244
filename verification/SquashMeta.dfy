/** Metadata blocks of a squashfs image (pkg/lib/squashfs/writer.go:301-404): raw metadata is cut into
    8 KiB blocks, each behind a two-byte header. */
module SquashMeta {
  import opened Arith
  import opened SquashBytes

  const META: nat := 8192
  const UNCOMPRESSED: nat := 32768

  /** zlib, as a pair of functions. */
  datatype Codec = Codec(compress: bytes -> bytes, decompress: bytes -> bytes)

  ghost predicate IsCodec(z: Codec) {
    forall s: bytes :: z.decompress(z.compress(s)) == s
  }

  function First(raw: bytes): (r: bytes)
    ensures |r| <= META && (raw != [] ==> r != []) && |r| <= |raw|
  {
    if |raw| <= META then raw else raw[..META]
  }

  /** Header and payload of one block. */
  function Block(z: Codec, chunk: bytes, fixedSize: bool): (r: (nat, bytes))
  {
    var c := z.compress(chunk);
    if !fixedSize && |c| < |chunk| then (|c|, c) else (|chunk| + UNCOMPRESSED, chunk)
  }

  function BlockBytes(b: (nat, bytes)): bytes {
    LE(b.0, 2) + b.1
  }

  /** The table on disk. */
  function Pack(z: Codec, raw: bytes, fixedSize: bool): bytes
    decreases |raw|
  {
    if raw == [] then []
    else BlockBytes(Block(z, First(raw), fixedSize)) + Pack(z, raw[|First(raw)|..], fixedSize)
  }

  /** What a reader that starts at a block boundary sees. */
  function Unpack(z: Codec, disk: bytes): bytes
    decreases |disk|
  {
    if |disk| < 2 then []
    else
      var h := LittleEndian(disk[..2]);
      var n := h % UNCOMPRESSED;
      if |disk| < 2 + n then []
      else
        var payload := disk[2..2 + n];
        (if h >= UNCOMPRESSED then payload else z.decompress(payload)) + Unpack(z, disk[2 + n..])
  }

  lemma {:induction false} UnpackBlock(z: Codec, chunk: bytes, fixedSize: bool, rest: bytes)
    requires IsCodec(z) && 0 < |chunk| <= META
    ensures Unpack(z, BlockBytes(Block(z, chunk, fixedSize)) + rest) == chunk + Unpack(z, rest)
  {
    var (h, payload) := Block(z, chunk, fixedSize);
    var disk := BlockBytes((h, payload)) + rest;
    Pow256Values();
    LEDecode(h, 2);
    assert disk[..2] == LE(h, 2);
    assert h % UNCOMPRESSED == |payload|;
    assert disk[2..2 + |payload|] == payload;
    assert disk[2 + |payload|..] == rest;
  }

  /** Reading a table from its start gives the raw metadata back, and then what follows the table. */
  lemma {:induction false} UnpackPack(z: Codec, raw: bytes, fixedSize: bool, rest: bytes)
    requires IsCodec(z)
    ensures Unpack(z, Pack(z, raw, fixedSize) + rest) == raw + Unpack(z, rest)
    decreases |raw|
  {
    hide Block, BlockBytes, LittleEndian, LE;
    if raw == [] {
      assert Pack(z, raw, fixedSize) + rest == rest;
    } else {
      var f := First(raw);
      var more := raw[|f|..];
      var b, t := BlockBytes(Block(z, f, fixedSize)), Pack(z, more, fixedSize);
      assert Pack(z, raw, fixedSize) + rest == b + (t + rest) by { Assoc(b, t, rest); }
      assert Unpack(z, b + (t + rest)) == f + Unpack(z, t + rest) by { UnpackBlock(z, f, fixedSize, t + rest); }
      UnpackPack(z, more, fixedSize, rest);
      assert f + (more + Unpack(z, rest)) == raw + Unpack(z, rest) by {
        assert raw == f + more;
        Assoc(f, more, Unpack(z, rest));
      }
    }
  }

  lemma {:induction false} Assoc(a: bytes, b: bytes, c: bytes)
    ensures a + b + c == a + (b + c)
  {
  }

  lemma {:induction false} DropFirst(a: bytes, b: bytes, c: bytes)
    ensures (a + b + c)[|a|..] == b + c
  {
  }

  lemma {:induction false} DropPart(a: bytes, b: bytes, k: nat)
    requires k <= |a|
    ensures (a + b)[k..] == a[k..] + b
  {
  }

  /** A cut at a multiple of the block size cuts the table at a block boundary. */
  lemma {:induction false} PackConcat(z: Codec, a: bytes, b: bytes, fixedSize: bool)
    requires |a| % META == 0
    ensures Pack(z, a + b, fixedSize) == Pack(z, a, fixedSize) + Pack(z, b, fixedSize)
    decreases |a|
  {
    if a == [] {
      assert a + b == b;
    } else {
      assert First(a + b) == First(a) == a[..META] by { assert (a + b)[..META] == a[..META]; }
      assert (a + b)[META..] == a[META..] + b;
      PackConcat(z, a[META..], b, fixedSize);
    }
  }

  /** Stored blocks of fixed size: block j starts at j * (8192 + 2), whatever the content. */
  lemma {:induction false} FixedOffsets(z: Codec, a: bytes)
    requires |a| % META == 0
    ensures |Pack(z, a, true)| == |a| / META * (META + 2)
    decreases |a|
  {
    if a != [] {
      FixedOffsets(z, a[META..]);
    }
  }

  /** Where a raw position lies on disk: the start of its block in the table, and the offset in it. */
  function RefBlock(p: nat): nat {
    p / META * (META + 2)
  }

  function RefOffset(p: nat): nat {
    p % META
  }

  /** Following a reference to raw position `p` finds what was written at `p`, whatever follows the table. */
  lemma {:induction false} FollowReference(z: Codec, raw: bytes, p: nat, rest: bytes)
    requires IsCodec(z) && p <= |raw|
    ensures RefBlock(p) <= |Pack(z, raw, true) + rest|
    ensures var seen := Unpack(z, (Pack(z, raw, true) + rest)[RefBlock(p)..]);
      RefOffset(p) <= |seen| && seen[RefOffset(p)..] == raw[p..] + Unpack(z, rest)
  {
    var k := p / META * META;
    var a, b := raw[..k], raw[k..];
    assert raw == a + b;
    PackConcat(z, a, b, true);
    FixedOffsets(z, a);
    UnpackPack(z, b, true, rest);
    assert |a| / META == p / META;
    DropFirst(Pack(z, a, true), Pack(z, b, true), rest);
    DropPart(b, Unpack(z, rest), RefOffset(p));
    assert b[RefOffset(p)..] == raw[p..];
  }

  /** `metadataCache`: per block its offset in the table, its stored bytes and its header. */
  datatype Cache = Cache(offsets: seq<nat>, blocks: seq<bytes>, headers: seq<nat>)

  /** What `writeMetadataCached` writes. */
  function Written(mc: Cache, i: nat): bytes
    requires i <= |mc.blocks| == |mc.headers|
  {
    if i == 0 then [] else Written(mc, i - 1) + BlockBytes((mc.headers[i - 1], mc.blocks[i - 1]))
  }

  ghost predicate Caches(mc: Cache, z: Codec, raw: bytes, fixedSize: bool) {
    && |mc.offsets| == |mc.blocks| == |mc.headers| == (|raw| + META - 1) / META
    && Written(mc, |mc.blocks|) == Pack(z, raw, fixedSize)
    && (fixedSize ==> forall j :: 0 <= j < |mc.offsets| ==> mc.offsets[j] == j * (META + 2))
  }

  lemma {:induction false} WrittenExtends(mc: Cache, more: Cache, i: nat)
    requires i <= |mc.blocks| == |mc.headers| && |more.blocks| == |more.headers|
    requires mc.blocks <= more.blocks && mc.headers <= more.headers
    ensures Written(more, i) == Written(mc, i)
  {
    if i > 0 {
      WrittenExtends(mc, more, i - 1);
    }
  }

  lemma {:induction false} PackChunk(z: Codec, chunk: bytes, fixedSize: bool)
    requires 0 < |chunk| <= META
    ensures Pack(z, chunk, fixedSize) == BlockBytes(Block(z, chunk, fixedSize))
  {
    assert chunk[|chunk|..] == [];
  }

  lemma {:induction false} CacheBlock(
    mc: Cache, z: Codec, a: bytes, chunk: bytes, fixedSize: bool, pos: nat, b: (nat, bytes))
    requires |a| % META == 0 && 0 < |chunk| <= META && Caches(mc, z, a, fixedSize)
    requires (fixedSize ==> pos == |a| / META * (META + 2)) && b == Block(z, chunk, fixedSize)
    ensures Caches(Cache(mc.offsets + [pos], mc.blocks + [b.1], mc.headers + [b.0]), z, a + chunk, fixedSize)
  {
    var more := Cache(mc.offsets + [pos], mc.blocks + [b.1], mc.headers + [b.0]);
    PackConcat(z, a, chunk, fixedSize);
    PackChunk(z, chunk, fixedSize);
    WrittenExtends(mc, more, |mc.blocks|);
  }

  lemma {:induction false} NextBlock(i: nat)
    requires i % META == 0
    ensures (i + META) % META == 0 && (i + META) / META * (META + 2) == i / META * (META + 2) + META + 2
  {
  }

  /** `compressMetadataBlocks`. With fixed-size blocks the offsets do not depend on the content. */
  method CompressMetadataBlocks(z: Codec, raw: bytes, fixedSize: bool) returns (mc: Cache)
    ensures Caches(mc, z, raw, fixedSize)
  {
    mc := Cache([], [], []);
    var pos: nat, i := 0, 0;
    ghost var done := 0;
    while i < |raw|
      invariant done == (if i <= |raw| then i else |raw|) && i % META == 0
      invariant Caches(mc, z, raw[..done], fixedSize)
      invariant fixedSize && i <= |raw| ==> pos == i / META * (META + 2)
    {
      var end := i + META;
      if end > |raw| {
        end := |raw|;
      }
      var chunk := raw[i..end];
      var (header, stored) := Block(z, chunk, fixedSize);
      CacheBlock(mc, z, raw[..i], chunk, fixedSize, pos, (header, stored));
      assert raw[..end] == raw[..i] + chunk;
      mc := Cache(mc.offsets + [pos], mc.blocks + [stored], mc.headers + [header]);
      pos := pos + 2 + |stored|;
      NextBlock(i);
      i := i + META;
      done := end;
    }
    assert raw[..|raw|] == raw;
  }
}
