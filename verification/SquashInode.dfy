/** Inode records of a squashfs image (pkg/lib/squashfs/writer.go:757-885): how they are written, how
    the fixup pass completes them, and how they are read. */
module SquashInode {
  import opened Options
  import opened Arith
  import opened SquashBytes
  import opened SquashMeta

  datatype Attr = Attr(mode: nat, mtime: nat)

  /** What the writer knows of an inode. For a directory: how many children it has, where its listing
      starts in the raw directory table, how long it is, and which groups it consists of. */
  datatype Rec =
    | FileRec(attr: Attr, inum: nat, start: nat, frag: nat, fragOff: nat, size: nat, blocks: seq<nat>)
    | LinkRec(mtime: nat, inum: nat, target: bytes)
    | DirRec(attr: Attr, inum: nat, count: nat, listing: nat, size: nat, lo: nat, hi: nat)

  function HeaderFields(kind: nat, mode: nat, mtime: nat, inum: nat): seq<Field> {
    [Field(kind, 2), Field(mode, 2), Field(0, 2), Field(0, 2), Field(mtime, 4), Field(inum, 4)]
  }

  const HEADER: seq<nat> := [2, 2, 2, 2, 4, 4]

  function WordFields(ws: seq<nat>): (fs: seq<Field>)
    ensures |fs| == |ws| && forall i :: 0 <= i < |ws| ==> fs[i] == Field(ws[i], 4)
  {
    seq(|ws|, i requires 0 <= i < |ws| => Field(ws[i], 4))
  }

  /** A directory inode is basic while its size fits 16 bits. */
  predicate IsBasic(size: nat) {
    size + 3 <= 0xFFFF
  }

  /** The fields after the common header, with a given reference to the listing. */
  function DirFields(count: nat, size: nat, block: nat, offset: nat): seq<Field> {
    if IsBasic(size) then
      [Field(block, 4), Field(count + 2, 4), Field(size + 3, 2), Field(offset, 2), Field(1, 4)]
    else
      [Field(count + 2, 4), Field(size + 3, 4), Field(block, 4), Field(1, 4),
        Field(0, 2), Field(offset, 2), Field(0, 4)]
  }

  function DirBytes(attr: Attr, inum: nat, count: nat, size: nat, block: nat, offset: nat): bytes {
    Encode(HeaderFields(if IsBasic(size) then 1 else 8, attr.mode, attr.mtime, inum))
    + Encode(DirFields(count, size, block, offset))
  }

  /** The record as appended to the raw inode table: references are still zero. */
  function RecBytes(r: Rec): bytes {
    match r
    case FileRec(attr, inum, start, frag, fragOff, size, blocks) =>
      Encode(HeaderFields(2, attr.mode, attr.mtime, inum))
      + Encode([Field(start, 4), Field(frag, 4), Field(fragOff, 4), Field(size, 4)])
      + Encode(WordFields(blocks))
    case LinkRec(mtime, inum, target) =>
      Encode(HeaderFields(3, 511, mtime, inum)) + Encode([Field(1, 4), Field(|target|, 4)]) + target
    case DirRec(attr, inum, count, listing, size, _, _) => DirBytes(attr, inum, count, size, 0, 0)
  }

  /** The record after the fixup pass. */
  function FixedBytes(r: Rec): bytes {
    if r.DirRec? && r.count > 0 then
      DirBytes(r.attr, r.inum, r.count, r.size, RefBlock(r.listing), RefOffset(r.listing))
    else RecBytes(r)
  }

  /** Where `block_index` lies in a directory inode; `block_offset` lies ten bytes further on. */
  function RefField(size: nat): nat {
    if IsBasic(size) then 16 else 24
  }

  function RecPatches(r: Rec): seq<Patch> {
    if r.DirRec? && r.count > 0 then DirPatches(RefField(r.size), r.listing) else []
  }

  function DirPatches(at: nat, listing: nat): seq<Patch> {
    [Patch(at, LE(RefBlock(listing), 4)), Patch(at + 10, LE(RefOffset(listing), 2))]
  }

  function PieceOf(r: Rec): Piece {
    Piece(RecBytes(r), RecPatches(r))
  }

  lemma {:induction false} EncodeConcat(a: seq<Field>, b: seq<Field>)
    ensures Encode(a + b) == Encode(a) + Encode(b)
    decreases |a|
  {
    if a == [] {
      assert a + b == b;
    } else {
      assert (a + b)[1..] == a[1..] + b;
      EncodeConcat(a[1..], b);
    }
  }

  /** The bytes of a directory inode, cut at its two reference fields. */
  function Before(attr: Attr, inum: nat, count: nat, size: nat): (r: bytes)
    ensures |r| == RefField(size)
  {
    var h := Encode(HeaderFields(if IsBasic(size) then 1 else 8, attr.mode, attr.mtime, inum));
    HeaderLength(if IsBasic(size) then 1 else 8, attr.mode, attr.mtime, inum);
    if IsBasic(size) then h else h + (LE(count + 2, 4) + LE(size + 3, 4))
  }

  function Between(count: nat, size: nat): (r: bytes)
    ensures |r| == 6
  {
    if IsBasic(size) then LE(count + 2, 4) + LE(size + 3, 2) else LE(1, 4) + LE(0, 2)
  }

  function After(size: nat): bytes {
    if IsBasic(size) then LE(1, 4) else LE(0, 4)
  }

  lemma {:induction false} HeaderLength(kind: nat, mode: nat, mtime: nat, inum: nat)
    ensures |Encode(HeaderFields(kind, mode, mtime, inum))| == 16
    ensures Widths(HeaderFields(kind, mode, mtime, inum)) == HEADER
  {
    EncodeLength(HeaderFields(kind, mode, mtime, inum));
    var fs := HeaderFields(kind, mode, mtime, inum);
    assert Widths(fs) == HEADER by { WidthsAt(fs); }
    WidthOfHeader();
  }

  lemma {:induction false} WidthsAt(fs: seq<Field>)
    ensures |Widths(fs)| == |fs| && forall i :: 0 <= i < |fs| ==> Widths(fs)[i] == fs[i].width
    ensures |Values(fs)| == |fs| && forall i :: 0 <= i < |fs| ==> Values(fs)[i] == fs[i].value
    decreases |fs|
  {
    if fs != [] {
      WidthsAt(fs[1..]);
    }
  }

  lemma {:induction false} WidthOfHeader()
    ensures Width(HEADER) == 16
  {
    assert HEADER[1..] == [2, 2, 2, 4, 4];
    assert Width([2, 2, 2, 4, 4]) == 14 by {
      assert [2, 2, 2, 4, 4][1..] == [2, 2, 4, 4];
      assert [2, 2, 4, 4][1..] == [2, 4, 4];
      assert [2, 4, 4][1..] == [4, 4];
      assert [4, 4][1..] == [4];
    }
  }

  function F(f: Field): bytes {
    LE(f.value, f.width)
  }

  lemma {:induction false} Encode4(a: Field, b: Field, c: Field, d: Field)
    ensures Encode([a, b, c, d]) == F(a) + F(b) + F(c) + F(d)
  {
    hide LE;
    assert [a, b, c, d][1..] == [b, c, d];
    assert [b, c, d][1..] == [c, d];
    assert [c, d][1..] == [d];
    assert Encode([d]) == F(d) + [] == F(d);
    assert Encode([c, d]) == F(c) + F(d);
    assert Encode([b, c, d]) == F(b) + (F(c) + F(d));
    assert F(b) + (F(c) + F(d)) == F(b) + F(c) + F(d);
    assert F(a) + (F(b) + F(c) + F(d)) == F(a) + F(b) + F(c) + F(d);
  }

  /** The reference fields lie where the fixups expect them. */
  lemma {:induction false} DirBytesSplit(attr: Attr, inum: nat, count: nat, size: nat, block: nat, offset: nat)
    ensures DirBytes(attr, inum, count, size, block, offset)
      == Before(attr, inum, count, size) + LE(block, 4) + Between(count, size) + LE(offset, 2) + After(size)
  {
    hide LE, Encode, DirFields, HeaderFields;
    var h := Encode(HeaderFields(if IsBasic(size) then 1 else 8, attr.mode, attr.mtime, inum));
    if IsBasic(size) {
      BasicFields(count, size, block, offset);
      PutFirst(h, LE(block, 4), Between(count, size), LE(offset, 2), After(size));
    } else {
      ExtendedFields(count, size, block, offset);
      var p := LE(count + 2, 4) + LE(size + 3, 4);
      PutFirst(p, LE(block, 4), Between(count, size), LE(offset, 2), After(size));
      PutFirst(h + p, LE(block, 4), Between(count, size), LE(offset, 2), After(size));
      assert h + (p + (LE(block, 4) + Between(count, size) + LE(offset, 2) + After(size))) ==
        h + p + (LE(block, 4) + Between(count, size) + LE(offset, 2) + After(size));
    }
  }

  lemma {:induction false} PutFirst(h: bytes, x: bytes, b: bytes, y: bytes, c: bytes)
    ensures h + (x + b + y + c) == h + x + b + y + c
  {
  }

  lemma {:induction false} BasicFields(count: nat, size: nat, block: nat, offset: nat)
    requires IsBasic(size)
    ensures Encode(DirFields(count, size, block, offset)) ==
      LE(block, 4) + (LE(count + 2, 4) + LE(size + 3, 2)) + LE(offset, 2) + LE(1, 4)
  {
    hide LE;
    var last := Field(1, 4);
    var four := [Field(block, 4), Field(count + 2, 4), Field(size + 3, 2), Field(offset, 2)];
    assert DirFields(count, size, block, offset) == four + [last];
    EncodeConcat(four, [last]);
    Encode4(four[0], four[1], four[2], four[3]);
    assert Encode([last]) == LE(1, 4) + [];
  }

  lemma {:induction false} ExtendedFields(count: nat, size: nat, block: nat, offset: nat)
    requires !IsBasic(size)
    ensures Encode(DirFields(count, size, block, offset)) ==
      LE(count + 2, 4) + LE(size + 3, 4) + LE(block, 4) + (LE(1, 4) + LE(0, 2)) + LE(offset, 2) + LE(0, 4)
  {
    hide LE;
    var four := [Field(count + 2, 4), Field(size + 3, 4), Field(block, 4), Field(1, 4)];
    var three := [Field(0, 2), Field(offset, 2), Field(0, 4)];
    assert DirFields(count, size, block, offset) == four + three;
    EncodeConcat(four, three);
    Encode4(four[0], four[1], four[2], four[3]);
    assert three[1..] == [Field(offset, 2), Field(0, 4)] && three[1..][1..] == [Field(0, 4)];
    assert Encode([Field(0, 4)]) == LE(0, 4) + [];
  }

  lemma {:induction false} PatchTwo(a: bytes, x: bytes, b: bytes, y: bytes, c: bytes, x': bytes, y': bytes)
    requires |x| == |x'| && |y| == |y'|
    ensures var s := a + x + b + y + c;
      var ps := [Patch(|a|, x'), Patch(|a| + |x| + |b|, y')];
      AllInRange(|s|, ps) && ApplyAll(s, ps) == a + x' + b + y' + c
  {
    var s := a + x + b + y + c;
    var p, q := Patch(|a|, x'), Patch(|a| + |x| + |b|, y');
    var s1 := a + x' + b + y + c;
    assert Apply(s, p) == s1 by {
      assert s[..|a|] == a && s[|a| + |x|..] == b + y + c;
    }
    assert Apply(s1, q) == a + x' + b + y' + c by {
      assert s1[..|a| + |x| + |b|] == a + x' + b && s1[|a| + |x| + |b| + |y|..] == c;
    }
    assert [p, q][..1] == [p] && [p][..0] == [];
    assert ApplyAll(s, [p]) == Apply(ApplyAll(s, []), p);
  }

  /** Patching turns the record into its final form, and keeps its length. */
  lemma {:induction false} PatchedRec(r: Rec)
    ensures PieceOk(PieceOf(r)) && |FixedBytes(r)| == |RecBytes(r)|
    ensures ApplyAll(RecBytes(r), RecPatches(r)) == FixedBytes(r)
  {
    if r.DirRec? && r.count > 0 {
      DirBytesSplit(r.attr, r.inum, r.count, r.size, 0, 0);
      DirBytesSplit(r.attr, r.inum, r.count, r.size, RefBlock(r.listing), RefOffset(r.listing));
      PatchTwo(Before(r.attr, r.inum, r.count, r.size), LE(0, 4), Between(r.count, r.size), LE(0, 2), After(r.size),
               LE(RefBlock(r.listing), 4), LE(RefOffset(r.listing), 2));
    }
  }

  // ----- reading -----

  datatype Inode =
    | FileInode(attr: Attr, inum: nat, start: nat, frag: nat, fragOff: nat, size: nat, blocks: seq<nat>)
    | LinkInode(mtime: nat, inum: nat, target: bytes)
    | DirInode(attr: Attr, inum: nat, block: nat, nlink: nat, fileSize: nat, offset: nat)

  function Fours(n: nat): (ws: seq<nat>)
    ensures |ws| == n && forall i :: 0 <= i < n ==> ws[i] == 4
  {
    seq(n, _ => 4)
  }

  /** The inode at the start of `s`, as a squashfs reader decodes it. Owner and group must be the first id of the
      image. */
  function ParseInode(s: bytes, blockSize: nat): Option<Inode>
    requires blockSize > 0
  {
    match Decode(s, HEADER)
    case None => None
    case Some(h) =>
      if |h| != 6 || |s| < 16 || h[2] != 0 || h[3] != 0 then None
      else ParseBody(h, s[16..], blockSize)
  }

  function ParseBody(h: seq<nat>, s: bytes, blockSize: nat): Option<Inode>
    requires blockSize > 0 && |h| == 6
  {
    var attr := Attr(h[1], h[4]);
    if h[0] == 1 then
      match Decode(s, [4, 4, 2, 2, 4])
      case None => None
      case Some(v) => if |v| != 5 then None else Some(DirInode(attr, h[5], v[0], v[1], v[2], v[3]))
    else if h[0] == 8 then
      match Decode(s, [4, 4, 4, 4, 2, 2, 4])
      case None => None
      case Some(v) => if |v| != 7 then None else Some(DirInode(attr, h[5], v[2], v[0], v[1], v[5]))
    else if h[0] == 2 then
      match Decode(s, [4, 4, 4, 4])
      case None => None
      case Some(v) =>
        if |v| != 4 || |s| < 16 then None
        else match Decode(s[16..], Fours(v[3] / blockSize))
             case None => None
             case Some(blocks) => Some(FileInode(attr, h[5], v[0], v[1], v[2], v[3], blocks))
    else if h[0] == 3 then
      match Decode(s, [4, 4])
      case None => None
      case Some(v) =>
        if |v| != 2 || |s| < 8 + v[1] then None
        else Some(LinkInode(h[4], h[5], s[8..8 + v[1]]))
    else None
  }

  /** What a reader should find. */
  function Decoded(r: Rec): Inode {
    match r
    case FileRec(attr, inum, start, frag, fragOff, size, blocks) =>
      FileInode(attr, inum, start, frag, fragOff, size, blocks)
    case LinkRec(mtime, inum, target) => LinkInode(mtime, inum, target)
    case DirRec(attr, inum, count, listing, size, _, _) =>
      DirInode(attr, inum, if count > 0 then RefBlock(listing) else 0, count + 2, size + 3,
               if count > 0 then RefOffset(listing) else 0)
  }

  const MAX32: nat := 0x1_0000_0000

  predicate AttrFits(a: Attr) {
    a.mode < 65536 && a.mtime < MAX32
  }

  /** Every number fits its field. */
  predicate RecFits(r: Rec, blockSize: nat)
    requires blockSize > 0
  {
    r.inum < MAX32 &&
    match r
    case FileRec(attr, inum, start, frag, fragOff, size, blocks) =>
      && AttrFits(attr) && start < MAX32 && frag < MAX32 && fragOff < MAX32 && size < MAX32
      && |blocks| == size / blockSize && forall i :: 0 <= i < |blocks| ==> blocks[i] < MAX32
    case LinkRec(mtime, inum, target) => mtime < MAX32 && |target| < MAX32
    case DirRec(attr, inum, count, listing, size, _, _) =>
      AttrFits(attr) && count + 2 < MAX32 && size + 3 < MAX32 && RefBlock(listing) < MAX32
  }

  lemma {:induction false} ParseHeader(kind: nat, mode: nat, mtime: nat, inum: nat, rest: bytes)
    requires kind < 65536 && mode < 65536 && mtime < MAX32 && inum < MAX32
    ensures var s := Encode(HeaderFields(kind, mode, mtime, inum)) + rest;
      Decode(s, HEADER) == Some([kind, mode, 0, 0, mtime, inum]) && |s| >= 16 && s[16..] == rest
  {
    var fs := HeaderFields(kind, mode, mtime, inum);
    Pow256Values();
    HeaderLength(kind, mode, mtime, inum);
    DecodeEncode(fs, rest);
    WidthsAt(fs);
    assert Values(fs) == [kind, mode, 0, 0, mtime, inum];
  }

  lemma {:induction false} ReadFields(fs: seq<Field>, rest: bytes, ws: seq<nat>, vs: seq<nat>)
    requires Fits(fs) && |ws| == |vs| == |fs|
    requires forall i :: 0 <= i < |fs| ==> fs[i] == Field(vs[i], ws[i])
    ensures Decode(Encode(fs) + rest, ws) == Some(vs)
  {
    DecodeEncode(fs, rest);
    WidthsAt(fs);
    assert Widths(fs) == ws;
    assert Values(fs) == vs;
  }

  lemma {:induction false} ParseDir(r: Rec, rest: bytes, blockSize: nat, block: nat, offset: nat)
    requires r.DirRec? && blockSize > 0 && RecFits(r, blockSize) && block < MAX32 && offset < 65536
    ensures ParseInode(DirBytes(r.attr, r.inum, r.count, r.size, block, offset) + rest, blockSize)
      == Some(DirInode(r.attr, r.inum, block, r.count + 2, r.size + 3, offset))
  {
    var kind := if IsBasic(r.size) then 1 else 8;
    var h := Encode(HeaderFields(kind, r.attr.mode, r.attr.mtime, r.inum));
    var fs := DirFields(r.count, r.size, block, offset);
    var body := Encode(fs) + rest;
    assert h + Encode(fs) + rest == h + body;
    ParseHeader(kind, r.attr.mode, r.attr.mtime, r.inum, body);
    ReadDirFields(r.count, r.size, block, offset, rest);
  }

  lemma {:induction false} ReadDirFields(count: nat, size: nat, block: nat, offset: nat, rest: bytes)
    requires count + 2 < MAX32 && size + 3 < MAX32 && block < MAX32 && offset < 65536
    ensures IsBasic(size) ==>
      Decode(Encode(DirFields(count, size, block, offset)) + rest, [4, 4, 2, 2, 4]) ==
        Some([block, count + 2, size + 3, offset, 1])
    ensures !IsBasic(size) ==>
      Decode(Encode(DirFields(count, size, block, offset)) + rest, [4, 4, 4, 4, 2, 2, 4]) ==
      Some([count + 2, size + 3, block, 1, 0, offset, 0])
  {
    var fs := DirFields(count, size, block, offset);
    Pow256Values();
    if IsBasic(size) {
      ReadFields(fs, rest, [4, 4, 2, 2, 4], [block, count + 2, size + 3, offset, 1]);
    } else {
      ReadFields(fs, rest, [4, 4, 4, 4, 2, 2, 4], [count + 2, size + 3, block, 1, 0, offset, 0]);
    }
  }

  lemma {:induction false} ParseFile(r: Rec, rest: bytes, blockSize: nat)
    requires r.FileRec? && blockSize > 0 && RecFits(r, blockSize)
    ensures ParseInode(RecBytes(r) + rest, blockSize) == Some(Decoded(r))
  {
    hide Encode, Decode, HeaderFields, LE, LittleEndian;
    var h := Encode(HeaderFields(2, r.attr.mode, r.attr.mtime, r.inum));
    var fs := [Field(r.start, 4), Field(r.frag, 4), Field(r.fragOff, 4), Field(r.size, 4)];
    var words := Encode(WordFields(r.blocks)) + rest;
    var body := Encode(fs) + words;
    assert RecBytes(r) + rest == h + body;
    ParseHeader(2, r.attr.mode, r.attr.mtime, r.inum, body);
    Pow256Values();
    ReadFields(fs, words, [4, 4, 4, 4], [r.start, r.frag, r.fragOff, r.size]);
    Encode4(fs[0], fs[1], fs[2], fs[3]);
    assert body[16..] == words;
    ReadFields(WordFields(r.blocks), rest, Fours(|r.blocks|), r.blocks);
  }

  lemma {:induction false} ParseLink(r: Rec, rest: bytes, blockSize: nat)
    requires r.LinkRec? && blockSize > 0 && RecFits(r, blockSize)
    ensures ParseInode(RecBytes(r) + rest, blockSize) == Some(Decoded(r))
  {
    var h := Encode(HeaderFields(3, 511, r.mtime, r.inum));
    var fs := [Field(1, 4), Field(|r.target|, 4)];
    var body := Encode(fs) + (r.target + rest);
    assert RecBytes(r) + rest == h + body;
    ParseHeader(3, 511, r.mtime, r.inum, body);
    Pow256Values();
    ReadFields(fs, r.target + rest, [4, 4], [1, |r.target|]);
    EncodeConcat([fs[0]], [fs[1]]);
    assert fs == [fs[0]] + [fs[1]];
    assert |Encode([fs[0]])| == 4 && |Encode([fs[1]])| == 4;
    assert body[8..8 + |r.target|] == r.target;
  }

  /** After the fixups every inode is read back as it was meant. */
  lemma {:induction false} ParseFixed(r: Rec, rest: bytes, blockSize: nat)
    requires blockSize > 0 && RecFits(r, blockSize)
    ensures ParseInode(FixedBytes(r) + rest, blockSize) == Some(Decoded(r))
  {
    match r
    case FileRec(_, _, _, _, _, _, _) => ParseFile(r, rest, blockSize);
    case LinkRec(_, _, _) => ParseLink(r, rest, blockSize);
    case DirRec(_, _, count, listing, _, _, _) =>
      ParseDir(r, rest, blockSize, if count > 0 then RefBlock(listing) else 0,
        if count > 0 then RefOffset(listing) else 0);
  }

  /** How many bytes an inode takes: at least 24. */
  function RecLen(r: Rec): (n: nat)
    ensures n >= 24
  {
    match r
    case FileRec(_, _, _, _, _, _, blocks) => 32 + 4 * |blocks|
    case LinkRec(_, _, target) => 24 + |target|
    case DirRec(_, _, _, _, size, _, _) => if IsBasic(size) then 32 else 40
  }

  lemma {:induction false} RecSize(r: Rec)
    ensures |RecBytes(r)| == RecLen(r)
  {
    match r
    case FileRec(attr, inum, start, frag, fragOff, size, blocks) =>
      HeaderLength(2, attr.mode, attr.mtime, inum);
      Encode4(Field(start, 4), Field(frag, 4), Field(fragOff, 4), Field(size, 4));
      WordsLength(WordFields(blocks));
    case LinkRec(mtime, inum, target) =>
      HeaderLength(3, 511, mtime, inum);
      EncodeConcat([Field(1, 4)], [Field(|target|, 4)]);
      assert [Field(1, 4), Field(|target|, 4)] == [Field(1, 4)] + [Field(|target|, 4)];
      assert |Encode([Field(1, 4)])| == 4 && |Encode([Field(|target|, 4)])| == 4;
    case DirRec(attr, inum, count, listing, size, _, _) =>
      DirBytesSplit(attr, inum, count, size, 0, 0);
  }

  lemma {:induction false} WordsLength(fs: seq<Field>)
    requires forall i :: 0 <= i < |fs| ==> fs[i].width == 4
    ensures |Encode(fs)| == 4 * |fs|
  {
    if fs != [] {
      WordsLength(fs[1..]);
    }
  }
}
