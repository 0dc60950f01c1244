/** File data of a squashfs image (pkg/lib/squashfs/writer.go:197-294): full blocks in place, tails
    collected in fragment blocks that are written later. */
module SquashData {
  import opened Options
  import opened SquashBytes
  import opened SquashMeta

  const RAW_BIT: nat := 0x100_0000
  const NO_FRAGMENT: nat := 0xFFFF_FFFF

  /** The size of the superblock, which lies in front of all data. */
  const SUPERBLOCK: nat := 96

  datatype Frag = Frag(start: nat, size: nat)

  /** The bytes written for a block, and its size field. */
  function Stored(z: Codec, data: bytes): (bytes, nat) {
    var c := z.compress(data);
    if |c| < |data| then (c, |c|) else (data, |data| + RAW_BIT)
  }

  /** What a reader finds at `pos` for a size field. */
  function ReadBlock(z: Codec, image: bytes, pos: nat, size: nat): Option<bytes> {
    var n := size % RAW_BIT;
    if pos + n > |image| then None
    else if size >= RAW_BIT then Some(image[pos..pos + n])
    else Some(z.decompress(image[pos..pos + n]))
  }

  lemma {:induction false} ReadStored(z: Codec, before: bytes, data: bytes, after: bytes)
    requires IsCodec(z) && |data| < RAW_BIT
    ensures var (w, size) := Stored(z, data);
      ReadBlock(z, before + w + after, |before|, size) == Some(data)
  {
    var (w, size) := Stored(z, data);
    assert size % RAW_BIT == |w|;
    assert (before + w + after)[|before|..|before| + |w|] == w;
  }

  /** A block that can be read stays readable when the image grows. */
  lemma {:induction false} ReadBlockMono(z: Codec, image: bytes, more: bytes, pos: nat, size: nat)
    requires image <= more && ReadBlock(z, image, pos, size).Some?
    ensures ReadBlock(z, more, pos, size) == ReadBlock(z, image, pos, size)
  {
    var n := size % RAW_BIT;
    assert more[pos..pos + n] == image[pos..pos + n];
  }

  /** `more` continues `image`, up to the superblock in front, which is written last. */
  predicate Under(image: bytes, more: bytes) {
    SUPERBLOCK <= |image| <= |more| && image[SUPERBLOCK..] <= more[SUPERBLOCK..]
  }

  lemma {:induction false} UnderSlice(image: bytes, more: bytes, a: nat, b: nat)
    requires Under(image, more) && SUPERBLOCK <= a <= b <= |image|
    ensures b <= |more| && more[a..b] == image[a..b]
  {
    assert image[a..b] == image[SUPERBLOCK..][a - SUPERBLOCK..b - SUPERBLOCK];
    assert more[a..b] == more[SUPERBLOCK..][a - SUPERBLOCK..b - SUPERBLOCK];
  }

  /** Another superblock does not disturb what lies behind it. */
  lemma {:induction false} ReadBlockUnder(z: Codec, image: bytes, more: bytes, pos: nat, size: nat)
    requires Under(image, more) && SUPERBLOCK <= pos && ReadBlock(z, image, pos, size).Some?
    ensures ReadBlock(z, more, pos, size) == ReadBlock(z, image, pos, size)
  {
    UnderSlice(image, more, pos, pos + size % RAW_BIT);
  }

  /** Consecutive blocks from `pos` on. */
  function ReadBlocks(z: Codec, image: bytes, pos: nat, sizes: seq<nat>): Option<bytes>
    decreases |sizes|
  {
    if sizes == [] then Some([])
    else
      match ReadBlocks(z, image, pos, sizes[..|sizes| - 1])
      case None => None
      case Some(s) =>
        match ReadBlock(z, image, pos + Stride(sizes[..|sizes| - 1]), sizes[|sizes| - 1])
        case None => None
        case Some(b) => Some(s + b)
  }

  /** The bytes that blocks with these size fields take. */
  function Stride(sizes: seq<nat>): nat {
    if sizes == [] then 0 else Stride(sizes[..|sizes| - 1]) + sizes[|sizes| - 1] % RAW_BIT
  }

  lemma {:induction false} ReadBlocksMono(z: Codec, image: bytes, more: bytes, pos: nat, sizes: seq<nat>)
    requires image <= more && ReadBlocks(z, image, pos, sizes).Some?
    ensures ReadBlocks(z, more, pos, sizes) == ReadBlocks(z, image, pos, sizes)
    decreases |sizes|
  {
    if sizes != [] {
      var init := sizes[..|sizes| - 1];
      ReadBlocksMono(z, image, more, pos, init);
      ReadBlockMono(z, image, more, pos + Stride(init), sizes[|sizes| - 1]);
    }
  }

  lemma {:induction false} ReadBlocksUnder(z: Codec, image: bytes, more: bytes, pos: nat, sizes: seq<nat>)
    requires Under(image, more) && SUPERBLOCK <= pos && ReadBlocks(z, image, pos, sizes).Some?
    ensures ReadBlocks(z, more, pos, sizes) == ReadBlocks(z, image, pos, sizes)
    decreases |sizes|
  {
    if sizes != [] {
      var init := sizes[..|sizes| - 1];
      ReadBlocksUnder(z, image, more, pos, init);
      ReadBlockUnder(z, image, more, pos + Stride(init), sizes[|sizes| - 1]);
    }
  }

  /** The data side of the writer: the image so far, the fragment table, what its blocks hold, and
      the tails not flushed yet. */
  datatype Data = Data(image: bytes, frags: seq<Frag>, contents: seq<bytes>, pending: bytes)

  function Tails(d: Data): seq<bytes> {
    d.contents + [d.pending]
  }

  ghost predicate DataOk(z: Codec, bs: nat, d: Data) {
    && 0 < bs < RAW_BIT && |d.frags| == |d.contents| && |d.pending| <= bs && SUPERBLOCK <= |d.image|
    && (forall i :: 0 <= i < |d.frags| ==> FragOk(z, bs, d, i))
  }

  ghost predicate FragOk(z: Codec, bs: nat, d: Data, i: nat)
    requires i < |d.frags| == |d.contents|
  {
    && |d.contents[i]| <= bs && d.frags[i].size < 2 * RAW_BIT && SUPERBLOCK <= d.frags[i].start
    && ReadBlock(z, d.image, d.frags[i].start, d.frags[i].size) == Some(d.contents[i])
  }

  /** Nothing already written or collected changes. */
  ghost predicate Grows(d: Data, e: Data) {
    && d.image <= e.image && d.frags <= e.frags && d.contents <= e.contents
    && d.pending <= Tails(e)[|d.contents|]
  }

  lemma {:induction false} GrowsTransitive(d: Data, e: Data, f: Data)
    requires Grows(d, e) && Grows(e, f)
    ensures Grows(d, f)
  {
    var i := |d.contents|;
    if i < |e.contents| {
      assert Tails(e)[i] == e.contents[i] == f.contents[i] == Tails(f)[i];
    }
  }

  /** Where a file's bytes are. */
  datatype Place = Place(start: nat, sizes: seq<nat>, frag: nat, fragOff: nat)

  /** The place holds the content: full blocks in the image, the tail in a fragment block that may
      still be pending. */
  ghost predicate Holds(z: Codec, bs: nat, d: Data, p: Place, content: bytes) {
    && bs > 0 && |p.sizes| == |content| / bs
    && ReadBlocks(z, d.image, p.start, p.sizes) == Some(content[..|content| / bs * bs])
    && TailHolds(d, p, content[|content| / bs * bs..])
    && SUPERBLOCK <= p.start <= |d.image|
    && (forall i :: 0 <= i < |p.sizes| ==> p.sizes[i] < 2 * RAW_BIT)
  }

  ghost predicate TailHolds(d: Data, p: Place, tail: bytes) {
    if tail == [] then p.frag == NO_FRAGMENT && p.fragOff == 0
    else
      && p.frag <= |d.contents|
      && p.fragOff + |tail| <= |Tails(d)[p.frag]|
      && Tails(d)[p.frag][p.fragOff..p.fragOff + |tail|] == tail
  }

  /** Writing more keeps every file readable. */
  lemma {:induction false} HoldsMono(z: Codec, bs: nat, d: Data, e: Data, p: Place, content: bytes)
    requires Holds(z, bs, d, p, content) && Grows(d, e)
    ensures Holds(z, bs, e, p, content)
  {
    ReadBlocksMono(z, d.image, e.image, p.start, p.sizes);
    TailMono(d, e, p, content[|content| / bs * bs..]);
  }

  lemma {:induction false} TailMono(d: Data, e: Data, p: Place, tail: bytes)
    requires TailHolds(d, p, tail) && Grows(d, e)
    ensures TailHolds(e, p, tail)
  {
    if tail != [] {
      var old', new' := Tails(d)[p.frag], Tails(e)[p.frag];
      assert old' <= new';
      assert new'[p.fragOff..p.fragOff + |tail|] == old'[p.fragOff..p.fragOff + |tail|];
    }
  }

  /** A file's bytes as a reader puts them together. */
  function ReadContent(z: Codec, bs: nat, image: bytes, frags: seq<Frag>, p: Place, size: nat): Option<bytes>
    requires bs > 0
  {
    match ReadBlocks(z, image, p.start, p.sizes)
    case None => None
    case Some(s) =>
      if p.frag == NO_FRAGMENT then Some(s)
      else if p.frag >= |frags| then None
      else
        match ReadBlock(z, image, frags[p.frag].start, frags[p.frag].size)
        case None => None
        case Some(b) =>
          if p.fragOff + size % bs > |b| then None else Some(s + b[p.fragOff..p.fragOff + size % bs])
  }

  /** Every fragment of the file lies behind the superblock. */
  predicate Behind(frags: seq<Frag>, p: Place) {
    SUPERBLOCK <= p.start && (p.frag < |frags| ==> SUPERBLOCK <= frags[p.frag].start)
  }

  lemma {:induction false} ReadContentUnder(
    z: Codec, bs: nat, image: bytes, more: bytes, frags: seq<Frag>, p: Place, size: nat)
    requires bs > 0 && Under(image, more) && Behind(frags, p) && ReadContent(z, bs, image, frags, p, size).Some?
    ensures ReadContent(z, bs, more, frags, p, size) == ReadContent(z, bs, image, frags, p, size)
  {
    ReadBlocksUnder(z, image, more, p.start, p.sizes);
    if p.frag != NO_FRAGMENT {
      ReadBlockUnder(z, image, more, frags[p.frag].start, frags[p.frag].size);
    }
  }

  /** Once the last fragment block is flushed every file reads back to exactly its bytes. */
  lemma {:induction false} ReadBack(z: Codec, bs: nat, d: Data, p: Place, content: bytes)
    requires DataOk(z, bs, d) && d.pending == [] && |d.frags| < NO_FRAGMENT && Holds(z, bs, d, p, content)
    ensures ReadContent(z, bs, d.image, d.frags, p, |content|) == Some(content)
  {
    var k := |content| / bs * bs;
    TailLength(|content|, bs);
    var tail := content[k..];
    assert content == content[..k] + tail;
    if tail == [] {
      assert content[..k] + [] == content[..k];
    } else {
      assert p.frag < |d.contents|;
      assert FragOk(z, bs, d, p.frag);
      assert d.contents[p.frag][p.fragOff..p.fragOff + |tail|] == tail;
    }
  }

  lemma {:induction false} TailLength(n: nat, bs: nat)
    requires bs > 0
    ensures n / bs * bs <= n && n - n / bs * bs == n % bs
  {
  }
}
