/** The fragment table of a squashfs image (pkg/lib/squashfs/writer.go:371-404, 887-913): entries in
    compressed metadata blocks, and a list of where these blocks are. */
module SquashFrags {
  import opened Options
  import opened Arith
  import opened SquashBytes
  import opened SquashMeta
  import opened SquashInode
  import opened SquashData

  const ENTRY: nat := 16
  const PER_BLOCK: nat := 512
  const MAX64: nat := 0x1_0000_0000_0000_0000

  function EntryBytes(f: Frag): (r: bytes)
    ensures |r| == ENTRY
  {
    LE(f.start, 8) + LE(f.size, 4) + LE(0, 4)
  }

  function TableBytes(frags: seq<Frag>): (r: bytes)
    ensures |r| == ENTRY * |frags|
  {
    if frags == [] then [] else TableBytes(frags[..|frags| - 1]) + EntryBytes(frags[|frags| - 1])
  }

  lemma {:induction false} EntryAt(frags: seq<Frag>, i: nat)
    requires i < |frags|
    ensures TableBytes(frags)[ENTRY * i..ENTRY * i + ENTRY] == EntryBytes(frags[i])
    decreases |frags|
  {
    if i < |frags| - 1 {
      EntryAt(frags[..|frags| - 1], i);
      var a := TableBytes(frags[..|frags| - 1]);
      assert TableBytes(frags)[ENTRY * i..ENTRY * i + ENTRY] == a[ENTRY * i..ENTRY * i + ENTRY];
    }
  }

  // ----- metadata blocks at known places -----

  /** The metadata block at `pos`. */
  function BlockAt(z: Codec, out: bytes, pos: nat): Option<bytes> {
    if pos + 2 > |out| then None
    else
      var h := LittleEndian(out[pos..pos + 2]);
      var n := h % UNCOMPRESSED;
      if pos + 2 + n > |out| then None
      else
        var payload := out[pos + 2..pos + 2 + n];
        Some(if h >= UNCOMPRESSED then payload else z.decompress(payload))
  }

  lemma {:induction false} BlockAtMono(z: Codec, out: bytes, more: bytes, pos: nat)
    requires out <= more && BlockAt(z, out, pos).Some?
    ensures BlockAt(z, more, pos) == BlockAt(z, out, pos)
  {
    assert more[pos..pos + 2] == out[pos..pos + 2];
    var n := LittleEndian(out[pos..pos + 2]) % UNCOMPRESSED;
    assert more[pos + 2..pos + 2 + n] == out[pos + 2..pos + 2 + n];
  }

  lemma {:induction false} BlockWritten(z: Codec, out: bytes, chunk: bytes)
    requires IsCodec(z) && 0 < |chunk| <= META
    ensures BlockAt(z, out + BlockBytes(Block(z, chunk, false)), |out|) == Some(chunk)
  {
    var (h, payload) := Block(z, chunk, false);
    var all := out + BlockBytes((h, payload));
    Pow256Values();
    LEDecode(h, 2);
    assert all[|out|..|out| + 2] == LE(h, 2);
    assert h % UNCOMPRESSED == |payload|;
    assert all[|out| + 2..|out| + 2 + |payload|] == payload;
  }

  /** The `k`-th 8 KiB of the raw table. */
  function Chunk(raw: bytes, k: nat): bytes
    requires k * META <= |raw|
  {
    if |raw| < (k + 1) * META then raw[k * META..] else raw[k * META..(k + 1) * META]
  }

  ghost predicate Tracks(z: Codec, out: bytes, raw: bytes, positions: seq<nat>) {
    forall k :: 0 <= k < |positions| ==> TracksOne(z, out, raw, positions, k)
  }

  ghost predicate TracksOne(z: Codec, out: bytes, raw: bytes, positions: seq<nat>, k: nat)
    requires k < |positions|
  {
    k * META <= |raw| && SUPERBLOCK <= positions[k] < |out| && BlockAt(z, out, positions[k]) == Some(Chunk(raw, k))
  }

  lemma {:induction false} TracksMore(z: Codec, out: bytes, more: bytes, raw: bytes, positions: seq<nat>)
    requires Tracks(z, out, raw, positions) && out <= more
    ensures Tracks(z, more, raw, positions)
  {
    forall k | 0 <= k < |positions| ensures TracksOne(z, more, raw, positions, k) {
      assert TracksOne(z, out, raw, positions, k);
      BlockAtMono(z, out, more, positions[k]);
    }
  }

  lemma {:induction false} TracksNext(z: Codec, out: bytes, raw: bytes, positions: seq<nat>)
    requires IsCodec(z) && Tracks(z, out, raw, positions) && |positions| * META < |raw| && SUPERBLOCK <= |out|
    ensures Tracks(z, out + BlockBytes(Block(z, Chunk(raw, |positions|), false)), raw, positions + [|out|])
  {
    var n := |positions|;
    var more := out + BlockBytes(Block(z, Chunk(raw, n), false));
    TracksMore(z, out, more, raw, positions);
    BlockWritten(z, out, Chunk(raw, n));
    forall k | 0 <= k < n + 1 ensures TracksOne(z, more, raw, positions + [|out|], k) {
      if k < n {
        assert TracksOne(z, more, raw, positions, k);
      }
    }
  }

  /** `writeMetadataBlocksTracked`. */
  method WriteTracked(z: Codec, out0: bytes, raw: bytes) returns (out: bytes, positions: seq<nat>)
    requires IsCodec(z) && SUPERBLOCK <= |out0|
    ensures out0 <= out && |positions| == (|raw| + META - 1) / META && Tracks(z, out, raw, positions)
    ensures |out| <= |out0| + |raw| + 2 * |positions|
  {
    out, positions := out0, [];
    var i := 0;
    while i < |raw|
      invariant i == |positions| * META && i < |raw| + META
      invariant out0 <= out && Tracks(z, out, raw, positions)
      invariant |out| <= |out0| + (if i < |raw| then i else |raw|) + 2 * |positions|
    {
      TracksNext(z, out, raw, positions);
      var end := if i + META > |raw| then |raw| else i + META;
      var chunk := raw[i..end];
      assert chunk == Chunk(raw, |positions|);
      var (header, stored) := Block(z, chunk, false);
      positions := positions + [|out|];
      out := out + (LE(header, 2) + stored);
      i := i + META;
    }
  }

  // ----- the list of places -----

  function IndexBytes(positions: seq<nat>): (r: bytes)
    ensures |r| == 8 * |positions|
  {
    if positions == [] then [] else IndexBytes(positions[..|positions| - 1]) + LE(positions[|positions| - 1], 8)
  }

  lemma {:induction false} IndexAt(positions: seq<nat>, k: nat)
    requires k < |positions|
    ensures IndexBytes(positions)[8 * k..8 * k + 8] == LE(positions[k], 8)
    decreases |positions|
  {
    if k < |positions| - 1 {
      IndexAt(positions[..|positions| - 1], k);
      var a := IndexBytes(positions[..|positions| - 1]);
      assert IndexBytes(positions)[8 * k..8 * k + 8] == a[8 * k..8 * k + 8];
    }
  }

  /** `writeFragmentTable`: the image with the table, and where its list of places starts. */
  method WriteFragmentTable(z: Codec, out0: bytes, frags: seq<Frag>) returns (out: bytes, table: nat)
    requires IsCodec(z) && SUPERBLOCK <= |out0|
    ensures out0 <= out && |out0| <= table <= |out| && HasTable(z, out, frags, table)
    ensures |out| <= |out0| + 16 * |frags| + 10 * ((16 * |frags| + META - 1) / META)
  {
    if frags == [] {
      assert HasIndex(z, out0, frags, |out0|, []);
      return out0, |out0|;
    }
    var blocks, positions := WriteTracked(z, out0, TableBytes(frags));
    table := |blocks|;
    out := WriteIndex(blocks, positions);
    TracksMore(z, blocks, out, TableBytes(frags), positions);
    assert HasIndex(z, out, frags, table, positions);
  }

  /** The list of places behind the blocks. */
  method WriteIndex(blocks: bytes, positions: seq<nat>) returns (out: bytes)
    ensures out == blocks + IndexBytes(positions)
  {
    out := blocks;
    var k := 0;
    while k < |positions|
      invariant 0 <= k <= |positions| && out == blocks + IndexBytes(positions[..k])
    {
      assert positions[..k + 1][..k] == positions[..k];
      out := out + LE(positions[k], 8);
      k := k + 1;
    }
    assert positions[..k] == positions;
  }

  ghost predicate HasIndex(z: Codec, out: bytes, frags: seq<Frag>, table: nat, positions: seq<nat>) {
    && |positions| == (ENTRY * |frags| + META - 1) / META && Tracks(z, out, TableBytes(frags), positions)
    && table + 8 * |positions| <= |out| && out[table..table + 8 * |positions|] == IndexBytes(positions)
  }

  lemma {:induction false} BlockAtUnder(z: Codec, out: bytes, more: bytes, pos: nat)
    requires Under(out, more) && SUPERBLOCK <= pos && BlockAt(z, out, pos).Some?
    ensures BlockAt(z, more, pos) == BlockAt(z, out, pos)
  {
    UnderSlice(out, more, pos, pos + 2);
    var n := LittleEndian(out[pos..pos + 2]) % UNCOMPRESSED;
    UnderSlice(out, more, pos + 2, pos + 2 + n);
  }

  lemma {:induction false} TracksUnder(z: Codec, out: bytes, more: bytes, raw: bytes, positions: seq<nat>)
    requires Tracks(z, out, raw, positions) && Under(out, more)
    ensures Tracks(z, more, raw, positions)
  {
    forall k | 0 <= k < |positions| ensures TracksOne(z, more, raw, positions, k) {
      assert TracksOne(z, out, raw, positions, k);
      BlockAtUnder(z, out, more, positions[k]);
    }
  }

  /** A table stays readable when other things follow it and the superblock is written. */
  lemma {:induction false} TableUnder(z: Codec, out: bytes, more: bytes, frags: seq<Frag>, table: nat)
    requires HasTable(z, out, frags, table) && Under(out, more) && SUPERBLOCK <= table
    ensures HasTable(z, more, frags, table)
  {
    var positions :| HasIndex(z, out, frags, table, positions);
    TracksUnder(z, out, more, TableBytes(frags), positions);
    UnderSlice(out, more, table, table + 8 * |positions|);
    assert HasIndex(z, more, frags, table, positions);
  }

  /** The table of these fragments lies at `table`. */
  ghost predicate HasTable(z: Codec, out: bytes, frags: seq<Frag>, table: nat) {
    exists positions :: HasIndex(z, out, frags, table, positions)
  }

  // ----- reading -----

  /** Fragment `i`, by way of the list of places. */
  function ReadFrag(z: Codec, out: bytes, table: nat, i: nat): Option<Frag> {
    var at := table + 8 * (i / PER_BLOCK);
    if at + 8 > |out| then None
    else
      match BlockAt(z, out, LittleEndian(out[at..at + 8]))
      case None => None
      case Some(block) =>
        var off := ENTRY * (i % PER_BLOCK);
        if off + ENTRY > |block| then None
        else Some(Frag(LittleEndian(block[off..off + 8]), LittleEndian(block[off + 8..off + 12])))
  }

  function ReadFragTable(z: Codec, out: bytes, table: nat, n: nat): Option<seq<Frag>> {
    if n == 0 then Some([])
    else
      match ReadFragTable(z, out, table, n - 1)
      case None => None
      case Some(frags) =>
        match ReadFrag(z, out, table, n - 1)
        case None => None
        case Some(f) => Some(frags + [f])
  }

  predicate FragFits(f: Frag) {
    f.start < MAX64 && f.size < MAX32
  }

  lemma {:induction false} SubSlice(s: bytes, a: nat, b: nat, c: nat, d: nat)
    requires a <= b <= |s| && c <= d <= b - a
    ensures s[a..b][c..d] == s[a + c..a + d]
  {
    var x, y := s[a..b][c..d], s[a + c..a + d];
    forall i | 0 <= i < |x| ensures x[i] == y[i] {
      assert x[i] == s[a..b][c + i] == s[a + c + i];
    }
  }

  lemma {:induction false} EntryInChunk(raw: bytes, i: nat)
    requires ENTRY * i + ENTRY <= |raw|
    ensures i / PER_BLOCK * META <= |raw|
    ensures var (c, off) := (Chunk(raw, i / PER_BLOCK), ENTRY * (i % PER_BLOCK));
      off + ENTRY <= |c| && c[off..off + ENTRY] == raw[ENTRY * i..ENTRY * i + ENTRY]
  {
    var k, off := i / PER_BLOCK, ENTRY * (i % PER_BLOCK);
    assert ENTRY * i == k * META + off;
    SubSlice(raw, k * META, k * META + |Chunk(raw, k)|, off, off + ENTRY);
  }

  lemma {:induction false} DecodeEntry(f: Frag, s: bytes)
    requires s == EntryBytes(f) && FragFits(f)
    ensures LittleEndian(s[..8]) == f.start && LittleEndian(s[8..12]) == f.size
  {
    Pow256Values();
    Pow256Eight();
    LEDecode(f.start, 8);
    LEDecode(f.size, 4);
    assert s[..8] == LE(f.start, 8) && s[8..12] == LE(f.size, 4);
  }

  lemma {:induction false} Pow256Eight()
    ensures Pow256(8) == MAX64
  {
    Pow256Values();
    assert Pow256(5) == 256 * Pow256(4) && Pow256(6) == 256 * Pow256(5) && Pow256(7) == 256 * Pow256(6);
  }

  lemma {:induction false} Eight(n: nat, s: bytes)
    requires n < MAX64 && s == LE(n, 8)
    ensures LittleEndian(s) == n
  {
    Pow256Eight();
    LEDecode(n, 8);
  }

  lemma {:induction false} PositionIsRead(out: bytes, table: nat, positions: seq<nat>, k: nat)
    requires table + 8 * |positions| <= |out| && out[table..table + 8 * |positions|] == IndexBytes(positions)
    requires k < |positions| && positions[k] < MAX64
    ensures LittleEndian(out[table + 8 * k..table + 8 * k + 8]) == positions[k]
  {
    IndexAt(positions, k);
    SubSlice(out, table, table + 8 * |positions|, 8 * k, 8 * k + 8);
    Eight(positions[k], out[table + 8 * k..table + 8 * k + 8]);
  }

  lemma {:induction false} EntryIsRead(frags: seq<Frag>, i: nat, c: bytes, off: nat)
    requires i < |frags| && FragFits(frags[i]) && i / PER_BLOCK * META <= ENTRY * |frags|
    requires c == Chunk(TableBytes(frags), i / PER_BLOCK) && off == ENTRY * (i % PER_BLOCK)
    ensures off + ENTRY <= |c|
    ensures Frag(LittleEndian(c[off..off + 8]), LittleEndian(c[off + 8..off + 12])) == frags[i]
  {
    hide LittleEndian, TableBytes, EntryBytes, Chunk;
    EntryAt(frags, i);
    EntryInChunk(TableBytes(frags), i);
    DecodeEntry(frags[i], c[off..off + ENTRY]);
    SubSlice(c, off, off + ENTRY, 0, 8);
    SubSlice(c, off, off + ENTRY, 8, 12);
  }

  lemma {:induction false} BlockOfEntry(i: nat, n: nat)
    requires i < n
    ensures i / PER_BLOCK < (ENTRY * n + META - 1) / META
  {
  }

  lemma {:induction false} FragIsRead(z: Codec, out: bytes, frags: seq<Frag>, table: nat, positions: seq<nat>, i: nat)
    requires HasIndex(z, out, frags, table, positions) && |out| <= MAX64 && i < |frags| && FragFits(frags[i])
    ensures ReadFrag(z, out, table, i) == Some(frags[i])
  {
    hide LittleEndian, TableBytes, IndexBytes, Chunk, BlockAt;
    var k := i / PER_BLOCK;
    BlockOfEntry(i, |frags|);
    assert TracksOne(z, out, TableBytes(frags), positions, k);
    PositionIsRead(out, table, positions, k);
    var block := Chunk(TableBytes(frags), k);
    assert BlockAt(z, out, LittleEndian(out[table + 8 * k..table + 8 * k + 8])) == Some(block);
    EntryIsRead(frags, i, block, ENTRY * (i % PER_BLOCK));
  }

  predicate AllFit(frags: seq<Frag>) {
    forall i :: 0 <= i < |frags| ==> FragFits(frags[i])
  }

  lemma {:induction false} ReadInOrder(z: Codec, out: bytes, frags: seq<Frag>, table: nat, n: nat)
    requires n <= |frags| && forall i :: 0 <= i < |frags| ==> ReadFrag(z, out, table, i) == Some(frags[i])
    ensures ReadFragTable(z, out, table, n) == Some(frags[..n])
    decreases n
  {
    hide ReadFrag;
    if n > 0 {
      ReadInOrder(z, out, frags, table, n - 1);
      assert ReadFrag(z, out, table, n - 1) == Some(frags[n - 1]);
      assert frags[..n] == frags[..n - 1] + [frags[n - 1]];
    }
  }

  /** The fragment table is read back as it was written. */
  lemma {:induction false} TableIsRead(z: Codec, out: bytes, frags: seq<Frag>, table: nat)
    requires HasTable(z, out, frags, table) && |out| <= MAX64 && AllFit(frags)
    ensures ReadFragTable(z, out, table, |frags|) == Some(frags)
  {
    var positions :| HasIndex(z, out, frags, table, positions);
    forall i | 0 <= i < |frags| ensures ReadFrag(z, out, table, i) == Some(frags[i]) {
      assert FragFits(frags[i]);
      FragIsRead(z, out, frags, table, positions, i);
    }
    ReadInOrder(z, out, frags, table, |frags|);
    assert frags[..|frags|] == frags;
  }

  // ----- the id table -----

  /** Every inode of an image has index 0 in the table of ids, and that is id 0. */
  function IdBytes(): bytes {
    LE(0, 4)
  }

  ghost predicate IdsAt(z: Codec, out: bytes, table: nat, pos: nat) {
    Tracks(z, out, IdBytes(), [pos]) && table + 8 <= |out| && out[table..table + 8] == LE(pos, 8)
  }

  ghost predicate HasIds(z: Codec, out: bytes, table: nat) {
    SUPERBLOCK <= table && exists pos :: IdsAt(z, out, table, pos)
  }

  /** `writeIDTable`. */
  method WriteIdTable(z: Codec, out0: bytes) returns (out: bytes, table: nat)
    requires IsCodec(z) && SUPERBLOCK <= |out0|
    ensures out0 <= out && |out0| <= table && table + 8 <= |out| <= |out0| + 14 && HasIds(z, out, table)
  {
    var blocks, positions := WriteTracked(z, out0, IdBytes());
    table := |blocks|;
    out := blocks + LE(positions[0], 8);
    assert positions == [positions[0]];
    TracksMore(z, blocks, out, IdBytes(), positions);
    assert IdsAt(z, out, table, positions[0]);
  }

  lemma {:induction false} IdsUnder(z: Codec, out: bytes, more: bytes, table: nat)
    requires HasIds(z, out, table) && Under(out, more)
    ensures HasIds(z, more, table)
  {
    var pos :| IdsAt(z, out, table, pos);
    TracksUnder(z, out, more, IdBytes(), [pos]);
    UnderSlice(out, more, table, table + 8);
    assert IdsAt(z, more, table, pos);
  }

  /** The first id of an image. */
  function ReadId(z: Codec, out: bytes, table: nat): Option<nat> {
    if table + 8 > |out| then None
    else
      match BlockAt(z, out, LittleEndian(out[table..table + 8]))
      case None => None
      case Some(block) => if |block| < 4 then None else Some(LittleEndian(block[..4]))
  }

  /** The owner of everything in the image is read back as root. */
  lemma {:induction false} IdIsRead(z: Codec, out: bytes, table: nat)
    requires HasIds(z, out, table) && |out| <= MAX64
    ensures ReadId(z, out, table) == Some(0)
  {
    hide BlockAt;
    var pos :| IdsAt(z, out, table, pos);
    assert TracksOne(z, out, IdBytes(), [pos], 0);
    Eight(pos, out[table..table + 8]);
    ZeroId();
  }

  lemma {:induction false} ZeroId()
    ensures Chunk(IdBytes(), 0) == IdBytes() && LittleEndian(IdBytes()[..4]) == 0
  {
    Pow256Values();
    LEDecode(0, 4);
    assert IdBytes()[..4] == LE(0, 4);
  }
}
