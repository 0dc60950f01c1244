/** Counting the regular files of a squashfs image (pkg/lib/squashfs/info.go:70-150): the inode table
    is put together from its metadata blocks and walked inode by inode. */
module SquashCount {
  import opened Options
  import opened Arith
  import opened SquashBytes
  import opened SquashMeta
  import opened SquashInode
  import opened SquashDir
  import opened SquashTree
  import opened SquashRead
  import opened SquashSuper

  // ----- metadata blocks -----

  /** The blocks from `pos` on; None when the file ends inside one. */
  function Deblock(z: Codec, file: bytes, pos: nat, end: nat): Option<bytes>
    decreases end - pos
  {
    if pos >= end then Some([])
    else if pos + 2 > |file| then None
    else
      var h := LittleEndian(file[pos..pos + 2]);
      var n := h % UNCOMPRESSED;
      if pos + 2 + n > |file| then None
      else
        var chunk := file[pos + 2..pos + 2 + n];
        match Deblock(z, file, pos + 2 + n, end)
        case None => None
        case Some(rest) => Some((if h >= UNCOMPRESSED then chunk else z.decompress(chunk)) + rest)
  }

  lemma {:induction false} DeblockOne(z: Codec, before: bytes, chunk: bytes, fixedSize: bool, after: bytes, end: nat)
    requires IsCodec(z) && 0 < |chunk| <= META
    requires |before| + |BlockBytes(Block(z, chunk, fixedSize))| <= end
    ensures var b := BlockBytes(Block(z, chunk, fixedSize));
      var rest := Deblock(z, before + b + after, |before + b|, end);
      Deblock(z, before + b + after, |before|, end) == if rest.None? then None else Some(chunk + rest.value)
  {
    var (h, payload) := Block(z, chunk, fixedSize);
    var file := before + BlockBytes((h, payload)) + after;
    Pow256Values();
    LEDecode(h, 2);
    assert file[|before|..|before| + 2] == LE(h, 2);
    assert h % UNCOMPRESSED == |payload|;
    assert file[|before| + 2..|before| + 2 + |payload|] == payload;
  }

  lemma {:induction false} Regroup(a: bytes, b: bytes, c: bytes, d: bytes)
    ensures a + (b + c) + d == (a + b) + c + d == a + b + (c + d)
    ensures |a + (b + c)| == |(a + b) + c|
  {
  }

  /** A written table is put together again, wherever it lies. */
  lemma {:induction false} DeblockPack(z: Codec, before: bytes, raw: bytes, fixedSize: bool, after: bytes)
    requires IsCodec(z)
    ensures Deblock(z, before + Pack(z, raw, fixedSize) + after, |before|, |before + Pack(z, raw, fixedSize)|) ==
      Some(raw)
    decreases |raw|
  {
    hide LE, Encode, Block, BlockBytes, LittleEndian;
    if raw != [] {
      var f := First(raw);
      var b := BlockBytes(Block(z, f, fixedSize));
      var t := Pack(z, raw[|f|..], fixedSize);
      DeblockPack(z, before + b, raw[|f|..], fixedSize, after);
      DeblockOne(z, before, f, fixedSize, t + after, |before + b + t|);
      Regroup(before, b, t, after);
      assert raw == f + raw[|f|..];
    }
  }

  // ----- inodes -----

  function U16(s: bytes, at: nat): nat
    requires at + 2 <= |s|
  {
    LittleEndian(s[at..at + 2])
  }

  function U32(s: bytes, at: nat): nat
    requires at + 4 <= |s|
  {
    LittleEndian(s[at..at + 4])
  }

  /** `inodeSize`; None for a type the writer does not emit, or when the fields are cut off. */
  function InodeSize(kind: nat, s: bytes, bs: nat): Option<nat>
    requires bs > 0
  {
    if kind == 1 then Some(32)
    else if kind == 2 then if |s| < 32 then None else Some(32 + 4 * (U32(s, 28) / bs))
    else if kind == 3 then if |s| < 24 then None else Some(24 + U32(s, 20))
    else if kind == 8 then Some(40)
    else None
  }

  /** A count, which an error leaves as it was. */
  datatype Counted = Counted(files: nat, ok: bool)

  /** Regular files among the next `left` inodes from `i` on. */
  function CountFrom(buf: bytes, i: nat, left: nat, bs: nat): Counted
    requires bs > 0
    decreases left
  {
    if left == 0 || i + 2 > |buf| then Counted(0, true)
    else
      match InodeSize(U16(buf, i), buf[i..], bs)
      case None => Counted(0, false)
      case Some(size) =>
        var rest := CountFrom(buf, i + size, left - 1, bs);
        rest.(files := rest.files + if U16(buf, i) == 2 then 1 else 0)
  }

  function KindNumber(r: Rec): nat {
    match r
    case FileRec(_, _, _, _, _, _, _) => 2
    case LinkRec(_, _, _) => 3
    case DirRec(_, _, _, _, size, _, _) => if IsBasic(size) then 1 else 8
  }

  /** Sizes that the walk can trust. */
  predicate Sized(r: Rec, bs: nat)
    requires bs > 0
  {
    match r
    case FileRec(_, _, _, _, _, size, blocks) => size < MAX32 && |blocks| == size / bs
    case LinkRec(_, _, target) => |target| < MAX32
    case DirRec(_, _, _, _, _, _, _) => true
  }

  predicate AllSized(recs: seq<Rec>, bs: nat)
    requires bs > 0
  {
    forall i :: 0 <= i < |recs| ==> Sized(recs[i], bs)
  }

  lemma {:induction false} KindField(kind: nat, mode: nat, mtime: nat, inum: nat, rest: bytes)
    requires kind < 65536
    ensures var s := Encode(HeaderFields(kind, mode, mtime, inum)) + rest;
      |s| >= 16 && s[16..] == rest && U16(s, 0) == kind
  {
    var fs := HeaderFields(kind, mode, mtime, inum);
    HeaderLength(kind, mode, mtime, inum);
    Pow256Values();
    LEDecode(kind, 2);
    assert fs[0] == Field(kind, 2);
    assert Encode(fs) == LE(kind, 2) + Encode(fs[1..]);
    assert (Encode(fs) + rest)[0..2] == LE(kind, 2);
  }

  lemma {:induction false} WordAt(before: bytes, n: nat, after: bytes)
    requires n < MAX32
    ensures U32(before + LE(n, 4) + after, |before|) == n
  {
    Pow256Values();
    LEDecode(n, 4);
    var s := before + LE(n, 4) + after;
    assert s[|before|..|before| + 4] == LE(n, 4);
  }

  lemma {:induction false} FileSized(r: Rec, rest: bytes, bs: nat)
    requires r.FileRec? && bs > 0 && Sized(r, bs)
    ensures var s := RecBytes(r) + rest; |s| >= 24 && U16(s, 0) == 2 && InodeSize(2, s, bs) == Some(RecLen(r))
  {
    var h := Encode(HeaderFields(2, r.attr.mode, r.attr.mtime, r.inum));
    var a := LE(r.start, 4) + LE(r.frag, 4) + LE(r.fragOff, 4);
    var words := Encode(WordFields(r.blocks));
    Encode4(Field(r.start, 4), Field(r.frag, 4), Field(r.fragOff, 4), Field(r.size, 4));
    HeaderLength(2, r.attr.mode, r.attr.mtime, r.inum);
    var s := RecBytes(r) + rest;
    assert s == (h + a) + LE(r.size, 4) + (words + rest);
    WordAt(h + a, r.size, words + rest);
    assert s == h + (a + LE(r.size, 4) + words + rest);
    KindField(2, r.attr.mode, r.attr.mtime, r.inum, a + LE(r.size, 4) + words + rest);
  }

  lemma {:induction false} LinkSized(r: Rec, rest: bytes, bs: nat)
    requires r.LinkRec? && bs > 0 && Sized(r, bs)
    ensures var s := RecBytes(r) + rest; |s| >= 24 && U16(s, 0) == 3 && InodeSize(3, s, bs) == Some(RecLen(r))
  {
    var h := Encode(HeaderFields(3, 511, r.mtime, r.inum));
    var n := |r.target|;
    HeaderLength(3, 511, r.mtime, r.inum);
    EncodeConcat([Field(1, 4)], [Field(n, 4)]);
    assert [Field(1, 4), Field(n, 4)] == [Field(1, 4)] + [Field(n, 4)];
    assert Encode([Field(1, 4)]) == LE(1, 4) + [] && Encode([Field(n, 4)]) == LE(n, 4) + [];
    var s := RecBytes(r) + rest;
    assert s == (h + LE(1, 4)) + LE(n, 4) + (r.target + rest);
    WordAt(h + LE(1, 4), n, r.target + rest);
    assert s == h + (LE(1, 4) + LE(n, 4) + r.target + rest);
    KindField(3, 511, r.mtime, r.inum, LE(1, 4) + LE(n, 4) + r.target + rest);
  }

  lemma {:induction false} DirSized(attr: Attr, inum: nat, count: nat, size: nat, block: nat, offset: nat, rest: bytes)
    ensures var s := DirBytes(attr, inum, count, size, block, offset) + rest;
      |s| >= 24 && U16(s, 0) == if IsBasic(size) then 1 else 8
  {
    hide Encode, LE, LittleEndian, DirFields, HeaderFields;
    var kind := if IsBasic(size) then 1 else 8;
    var h := Encode(HeaderFields(kind, attr.mode, attr.mtime, inum));
    var body := Encode(DirFields(count, size, block, offset));
    assert |body| >= 8 by {
      if IsBasic(size) {
        BasicFields(count, size, block, offset);
      } else {
        ExtendedFields(count, size, block, offset);
      }
    }
    assert h + body + rest == h + (body + rest);
    KindField(kind, attr.mode, attr.mtime, inum, body + rest);
  }

  /** Of every inode in the table, `inodeSize` finds the type and the size the writer gave it. */
  lemma {:induction false} SizeOfRec(r: Rec, rest: bytes, bs: nat)
    requires bs > 0 && Sized(r, bs)
    ensures var s := FixedBytes(r) + rest;
      |s| >= 24 && U16(s, 0) == KindNumber(r) && InodeSize(KindNumber(r), s, bs) == Some(RecLen(r))
  {
    match r
    case FileRec(_, _, _, _, _, _, _) => FileSized(r, rest, bs);
    case LinkRec(_, _, _) => LinkSized(r, rest, bs);
    case DirRec(attr, inum, count, listing, size, _, _) =>
      DirSized(attr, inum, count, size, if count > 0 then RefBlock(listing) else 0,
               if count > 0 then RefOffset(listing) else 0, rest);
  }

  // ----- the walk -----

  /** How many of the records from `i` on are regular files. */
  function FilesFrom(recs: seq<Rec>, i: nat): nat
    requires i <= |recs|
    decreases |recs| - i
  {
    if i == |recs| then 0 else FilesFrom(recs, i + 1) + if recs[i].FileRec? then 1 else 0
  }

  function Files(recs: seq<Rec>): nat {
    FilesFrom(recs, 0)
  }

  lemma {:induction false} FilesAppend(recs: seq<Rec>, r: Rec, i: nat)
    requires i <= |recs|
    ensures FilesFrom(recs + [r], i) == FilesFrom(recs, i) + if r.FileRec? then 1 else 0
    decreases |recs| - i
  {
    if i < |recs| {
      FilesAppend(recs, r, i + 1);
    } else {
      assert FilesFrom(recs + [r], i + 1) == 0;
    }
  }

  /** At record `k` the buffer shows that record's type and size. */
  predicate ShowsRec(buf: bytes, recs: seq<Rec>, k: nat, bs: nat)
    requires k < |recs| && bs > 0
  {
    var p := InodePos(recs, k);
    && p + 24 <= |buf| && U16(buf, p) == KindNumber(recs[k])
    && InodeSize(KindNumber(recs[k]), buf[p..], bs) == Some(RecLen(recs[k]))
  }

  lemma {:induction false} ShowsAt(l: Layout, i: nat, bs: nat)
    requires GroupsOk(l.groups) && i < |l.recs| && bs > 0 && Sized(l.recs[i], bs)
    ensures ShowsRec(InodeTable(l), l.recs, i, bs)
  {
    PiecesAreOk(l);
    InodePosIsOffset(l.recs, i);
    PieceAt(InodePieces(l.recs), i);
    PatchedRec(l.recs[i]);
    RecSize(l.recs[i]);
    ShowsFixed(InodeTable(l), l.recs, i, bs);
  }

  lemma {:induction false} ShowsFixed(buf: bytes, recs: seq<Rec>, i: nat, bs: nat)
    requires i < |recs| && bs > 0 && Sized(recs[i], bs)
    requires InodePos(recs, i) + RecLen(recs[i]) <= |buf|
    requires buf[InodePos(recs, i)..InodePos(recs, i) + RecLen(recs[i])] == FixedBytes(recs[i])
    ensures ShowsRec(buf, recs, i, bs)
  {
    var p, n := InodePos(recs, i), RecLen(recs[i]);
    assert buf[p..] == FixedBytes(recs[i]) + buf[p + n..];
    SizeOfRec(recs[i], buf[p + n..], bs);
    assert buf[p..p + 2] == buf[p..][0..2];
  }

  /** The walk lands on exactly the record boundaries. */
  lemma {:induction false} WalkFrom(buf: bytes, recs: seq<Rec>, i: nat, bs: nat)
    requires i <= |recs| && bs > 0 && forall k :: 0 <= k < |recs| ==> ShowsRec(buf, recs, k, bs)
    ensures CountFrom(buf, InodePos(recs, i), |recs| - i, bs) == Counted(FilesFrom(recs, i), true)
    decreases |recs| - i
  {
    if i < |recs| {
      assert ShowsRec(buf, recs, i, bs);
      WalkFrom(buf, recs, i + 1, bs);
    }
  }

  /** A superblock without a block size stands for the default of 128 KiB. */
  function BlockSize(field: nat): (bs: nat)
    ensures bs > 0 && (field > 0 ==> bs == field)
  {
    if field == 0 then 131072 else field
  }

  /** The count, for a file whose superblock has been read. */
  function CountReference(z: Codec, file: bytes, inodeTable: nat, dirTable: nat, inodes: nat, bs: nat): Counted {
    match Deblock(z, file, inodeTable, dirTable)
    case None => Counted(0, false)
    case Some(buf) => CountFrom(buf, 0, inodes, BlockSize(bs))
  }

  /** On a written table the walk counts the files that were written. */
  lemma {:induction false} CountsWrittenFiles(z: Codec, l: Layout, before: bytes, after: bytes, bs: nat)
    requires IsCodec(z) && GroupsOk(l.groups) && bs > 0 && AllSized(l.recs, bs)
    ensures CountReference(z, before + InodesOnDisk(z, l) + after, |before|,
      |before + InodesOnDisk(z, l)|, |l.recs|, bs)
      == Counted(Files(l.recs), true)
  {
    DeblockPack(z, before, InodeTable(l), true, after);
    forall k | 0 <= k < |l.recs| ensures ShowsRec(InodeTable(l), l.recs, k, bs) {
      assert Sized(l.recs[k], bs);
      ShowsAt(l, k, bs);
    }
    WalkFrom(InodeTable(l), l.recs, 0, bs);
  }

  method ReadTable(z: Codec, file: bytes, start: nat, end: nat) returns (raw: Option<bytes>)
    ensures raw == Deblock(z, file, start, end)
  {
    var pos: nat, buf: bytes := start, [];
    assert var all := Deblock(z, file, start, end); all.Some? ==> [] + all.value == all.value;
    while pos < end
      invariant Deblock(z, file, start, end) ==
        match Deblock(z, file, pos, end) case None => None case Some(rest) => Some(buf + rest)
      decreases end - pos
    {
      if pos + 2 > |file| {
        return None;
      }
      var h := LittleEndian(file[pos..pos + 2]);
      var n := h % UNCOMPRESSED;
      if pos + 2 + n > |file| {
        return None;
      }
      var chunk := file[pos + 2..pos + 2 + n];
      var data := if h >= UNCOMPRESSED then chunk else z.decompress(chunk);
      ghost var rest := Deblock(z, file, pos + 2 + n, end);
      assert rest.Some? ==> buf + (data + rest.value) == buf + data + rest.value;
      buf := buf + data;
      pos := pos + 2 + n;
    }
    assert buf + [] == buf;
    raw := Some(buf);
  }

  function Plus(n: nat, c: Counted): Counted {
    Counted(n + c.files, c.ok)
  }

  /** `CountRegularFiles`: the superblock says where the inode table is and how many inodes it holds. */
  function CountInFile(z: Codec, file: bytes): Counted {
    match ReadSuper(file)
    case None => Counted(0, false)
    case Some(s) => CountReference(z, file, s.inodeTable, s.dirTable, s.inodes, s.blockSize)
  }

  method CountRegularFiles(z: Codec, file: bytes) returns (r: Counted)
    ensures r == CountInFile(z, file)
  {
    var s := ReadSuper(file);
    if s.None? {
      return Counted(0, false);
    }
    r := CountInodes(z, file, s.value.inodeTable, s.value.dirTable, s.value.inodes, s.value.blockSize);
  }

  method CountInodes(z: Codec, file: bytes, inodeTable: nat, dirTable: nat, inodes: nat, bs: nat) returns (r: Counted)
    ensures r == CountReference(z, file, inodeTable, dirTable, inodes, bs)
  {
    hide BlockSize, LittleEndian, Deblock, InodeSize;
    var blockSize := BlockSize(bs);
    var raw := ReadTable(z, file, inodeTable, dirTable);
    if raw.None? {
      return Counted(0, false);
    }
    var buf := raw.value;
    var count, i, seen := 0, 0, 0;
    while seen < inodes && i + 2 <= |buf|
      invariant 0 <= seen <= inodes && 0 <= i && 0 <= count
      invariant CountFrom(buf, 0, inodes, blockSize) == Plus(count, CountFrom(buf, i, inodes - seen, blockSize))
      decreases inodes - seen
    {
      var kind := U16(buf, i);
      var size := InodeSize(kind, buf[i..], blockSize);
      if size.None? {
        return Counted(count, false);
      }
      if kind == 2 {
        count := count + 1;
      }
      i := i + size.value;
      seen := seen + 1;
    }
    r := Counted(count, true);
  }

  // ----- files of a tree -----

  function FilesIn(t: Node): nat
    decreases t, 0
  {
    match t
    case File(_, _) => 1
    case Link(_, _) => 0
    case Dir(_, entries) => FilesInSome(entries, |entries|)
  }

  /** Regular files among the first `n` entries and below them. */
  function FilesInSome(entries: seq<Entry>, n: nat): nat
    requires n <= |entries|
    decreases entries, n
  {
    if n == 0 then 0 else FilesInSome(entries, n - 1) + FilesIn(entries[n - 1].node)
  }

  predicate FilesSized(recs: seq<Rec>, bs: nat)
    requires bs > 0
  {
    forall i :: 0 <= i < |recs| ==> recs[i].FileRec? ==> Sized(recs[i], bs)
  }

  /** The records grow by so many regular files, of known size if the input fits. */
  ghost predicate Adds(bs: nat, files: nat, fits: bool, a: seq<Rec>, b: seq<Rec>)
    requires bs > 0
  {
    a <= b && Files(b) == Files(a) + files && (fits && FilesSized(a, bs) ==> FilesSized(b, bs))
  }

  lemma {:induction false} AddsRec(bs: nat, recs: seq<Rec>, r: Rec, fits: bool)
    requires bs > 0 && (fits && r.FileRec? ==> Sized(r, bs))
    ensures Adds(bs, if r.FileRec? then 1 else 0, fits, recs, recs + [r])
  {
    FilesAppend(recs, r, 0);
  }

  lemma {:induction false} AddsBoth(bs: nat, m: nat, n: nat, p: bool, q: bool, a: seq<Rec>, b: seq<Rec>, c: seq<Rec>)
    requires bs > 0 && Adds(bs, m, p, a, b) && Adds(bs, n, q, b, c)
    ensures Adds(bs, m + n, p && q, a, c)
  {
  }

  lemma {:induction false} SizedInImage(l: Layout, bs: nat)
    requires bs > 0 && FilesSized(l.recs, bs) && PositionsFit(l)
    ensures AllSized(l.recs, bs)
  {
    forall i | 0 <= i < |l.recs| ensures Sized(l.recs[i], bs) {
      InodeFits(l, i);
    }
  }
}
