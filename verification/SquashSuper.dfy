/** The superblock of a squashfs image (pkg/lib/squashfs/struct.go:15-35, writer.go:554-588): 96 bytes in front of
    everything else, written last. */
module SquashSuper {
  import opened Options
  import opened Arith
  import opened SquashBytes
  import opened SquashInode
  import opened SquashData
  import opened SquashFrags

  const MAGIC: nat := 0x7371_7368
  const MAGIC_LE: nat := 0x6873_7173
  const NO_TABLE: nat := MAX64 - 1
  const FLAGS: nat := 0x0240

  /** What the superblock says. */
  datatype Super = Super(inodes: nat, blockSize: nat, fragments: nat, rootBlock: nat, rootOffset: nat,
                         used: nat, idTable: nat, inodeTable: nat, dirTable: nat, fragTable: nat)

  /** The fields up to the version, of two or four bytes each. */
  function SmallFields(s: Super, mkfsTime: nat, comp: nat, blockLog: nat): seq<Field> {
    [Field(MAGIC, 4), Field(s.inodes, 4), Field(mkfsTime % MAX32, 4), Field(s.blockSize, 4), Field(s.fragments, 4),
     Field(comp, 2), Field(blockLog, 2), Field(FLAGS, 2), Field(1, 2), Field(4, 2), Field(0, 2)]
  }

  const SMALL: seq<nat> := [4, 4, 4, 4, 4, 2, 2, 2, 2, 2, 2]

  /** The positions, of eight bytes each. */
  function LargeFields(s: Super): seq<Field> {
    [Field(s.rootBlock * 65536 + s.rootOffset, 8), Field(s.used, 8), Field(s.idTable, 8), Field(NO_TABLE, 8),
     Field(s.inodeTable, 8), Field(s.dirTable, 8), Field(s.fragTable, 8), Field(NO_TABLE, 8)]
  }

  const LARGE: seq<nat> := [8, 8, 8, 8, 8, 8, 8, 8]

  function SuperBytes(s: Super, mkfsTime: nat, comp: nat, blockLog: nat): bytes {
    Encode(SmallFields(s, mkfsTime, comp, blockLog)) + Encode(LargeFields(s))
  }

  /** The superblock at the start of a file; None when the file is too short or the magic is another one. */
  function ReadSuper(file: bytes): Option<Super> {
    if |file| < SUPERBLOCK then None
    else
      match Decode(file, SMALL)
      case None => None
      case Some(v) =>
        match Decode(file[32..], LARGE)
        case None => None
        case Some(w) =>
          if |v| != 11 || |w| != 8 || (v[0] != MAGIC && v[0] != MAGIC_LE) then None
          else Some(Super(v[1], v[3], v[4], w[0] / 65536, w[0] % 65536, w[1], w[2], w[4], w[5], w[6]))
  }

  predicate SuperFits(s: Super) {
    && s.inodes < MAX32 && s.blockSize < MAX32 && s.fragments < MAX32
    && s.rootBlock < MAX32 && s.rootOffset < 65536 && s.used < MAX64
    && s.idTable < MAX64 && s.inodeTable < MAX64 && s.dirTable < MAX64 && s.fragTable < MAX64
  }

  lemma {:induction false} SmallLength(s: Super, mkfsTime: nat, comp: nat, blockLog: nat)
    ensures |Encode(SmallFields(s, mkfsTime, comp, blockLog))| == 32
  {
    hide LE;
    var f := SmallFields(s, mkfsTime, comp, blockLog);
    Encode4(f[0], f[1], f[2], f[3]);
    Encode4(f[4], f[5], f[6], f[7]);
    EncodeConcat([f[0], f[1], f[2], f[3]], [f[4], f[5], f[6], f[7]]);
    var last := [f[8], f[9], f[10]];
    EncodeConcat([f[0], f[1], f[2], f[3]] + [f[4], f[5], f[6], f[7]], last);
    assert f == [f[0], f[1], f[2], f[3]] + [f[4], f[5], f[6], f[7]] + last;
    assert last[1..] == [f[9], f[10]] && [f[9], f[10]][1..] == [f[10]];
    assert |Encode([f[10]])| == 2;
  }

  lemma {:induction false} LargeLength(s: Super)
    ensures |Encode(LargeFields(s))| == 64
  {
    hide LE;
    var f := LargeFields(s);
    Encode4(f[0], f[1], f[2], f[3]);
    Encode4(f[4], f[5], f[6], f[7]);
    EncodeConcat([f[0], f[1], f[2], f[3]], [f[4], f[5], f[6], f[7]]);
    assert f == [f[0], f[1], f[2], f[3]] + [f[4], f[5], f[6], f[7]];
  }

  /** Field `i` stands behind the fields before it. */
  lemma {:induction false} FieldStands(fs: seq<Field>, i: nat, at: nat)
    requires i < |fs| && at == |Encode(fs[..i])|
    ensures at + fs[i].width <= |Encode(fs)| && Encode(fs)[at..at + fs[i].width] == LE(fs[i].value, fs[i].width)
  {
    hide LE;
    EncodeConcat(fs[..i], fs[i..]);
    assert fs == fs[..i] + fs[i..];
    assert Encode(fs[i..]) == LE(fs[i].value, fs[i].width) + Encode(fs[i..][1..]);
  }

  lemma {:induction false} SameWidths(fs: seq<Field>, w: nat)
    requires forall i :: 0 <= i < |fs| ==> fs[i].width == w
    ensures |Encode(fs)| == w * |fs|
  {
    if fs != [] {
      SameWidths(fs[1..], w);
    }
  }

  lemma {:induction false} ShortAt(s: Super, mkfsTime: nat, comp: nat, blockLog: nat, i: nat)
    requires i < 5
    ensures var b := SuperBytes(s, mkfsTime, comp, blockLog);
      |b| == SUPERBLOCK && b[4 * i..4 * i + 4] == LE(SmallFields(s, mkfsTime, comp, blockLog)[i].value, 4)
  {
    hide LE;
    var fs := SmallFields(s, mkfsTime, comp, blockLog);
    SmallLength(s, mkfsTime, comp, blockLog);
    LargeLength(s);
    SameWidths(fs[..i], 4);
    FieldStands(fs, i, 4 * i);
    assert SuperBytes(s, mkfsTime, comp, blockLog)[4 * i..4 * i + 4] == Encode(fs)[4 * i..4 * i + 4];
  }

  lemma {:induction false} LongAt(s: Super, mkfsTime: nat, comp: nat, blockLog: nat, i: nat)
    requires i < 8
    ensures var b := SuperBytes(s, mkfsTime, comp, blockLog);
      |b| == SUPERBLOCK && b[32 + 8 * i..40 + 8 * i] == LE(LargeFields(s)[i].value, 8)
  {
    hide LE;
    var fs := LargeFields(s);
    SmallLength(s, mkfsTime, comp, blockLog);
    LargeLength(s);
    SameWidths(fs[..i], 8);
    FieldStands(fs, i, 8 * i);
    assert SuperBytes(s, mkfsTime, comp, blockLog)[32 + 8 * i..40 + 8 * i] == Encode(fs)[8 * i..8 * i + 8];
  }

  /** Where the fields stand: the magic number is "hsqs", the counts follow it, and the positions of the root inode and
      of the tables stand at 32, 40, 48, 64, 72 and 80. */
  lemma {:induction false} SuperLayout(s: Super, mkfsTime: nat, comp: nat, blockLog: nat)
    ensures var b := SuperBytes(s, mkfsTime, comp, blockLog);
      && |b| == SUPERBLOCK && b[0..4] == [0x68, 0x73, 0x71, 0x73]
      && b[4..8] == LE(s.inodes, 4) && b[12..16] == LE(s.blockSize, 4) && b[16..20] == LE(s.fragments, 4)
      && b[32..40] == LE(s.rootBlock * 65536 + s.rootOffset, 8) && b[40..48] == LE(s.used, 8)
      && b[48..56] == LE(s.idTable, 8) && b[64..72] == LE(s.inodeTable, 8) && b[72..80] == LE(s.dirTable, 8)
      && b[80..88] == LE(s.fragTable, 8)
  {
    hide LE, SuperBytes;
    ShortAt(s, mkfsTime, comp, blockLog, 0);
    ShortAt(s, mkfsTime, comp, blockLog, 1);
    ShortAt(s, mkfsTime, comp, blockLog, 3);
    ShortAt(s, mkfsTime, comp, blockLog, 4);
    LongAt(s, mkfsTime, comp, blockLog, 0);
    LongAt(s, mkfsTime, comp, blockLog, 1);
    LongAt(s, mkfsTime, comp, blockLog, 2);
    LongAt(s, mkfsTime, comp, blockLog, 4);
    LongAt(s, mkfsTime, comp, blockLog, 5);
    LongAt(s, mkfsTime, comp, blockLog, 6);
    MagicBytes();
  }

  lemma {:induction false} MagicBytes()
    ensures LE(MAGIC, 4) == [0x68, 0x73, 0x71, 0x73]
  {
    assert LE(0x7371, 2) == [0x71, 0x73];
  }

  lemma {:induction false} SuperLength(s: Super, mkfsTime: nat, comp: nat, blockLog: nat)
    ensures |SuperBytes(s, mkfsTime, comp, blockLog)| == SUPERBLOCK
  {
    SmallLength(s, mkfsTime, comp, blockLog);
    LargeLength(s);
  }

  /** A superblock whose numbers fit is read back, whatever follows it. */
  lemma {:induction false} SuperIsRead(s: Super, mkfsTime: nat, comp: nat, blockLog: nat, rest: bytes)
    requires SuperFits(s) && comp < 65536 && blockLog < 65536
    ensures ReadSuper(SuperBytes(s, mkfsTime, comp, blockLog) + rest) == Some(s)
  {
    var small, large := Encode(SmallFields(s, mkfsTime, comp, blockLog)), Encode(LargeFields(s));
    var file := SuperBytes(s, mkfsTime, comp, blockLog) + rest;
    SmallLength(s, mkfsTime, comp, blockLog);
    LargeLength(s);
    assert file == small + (large + rest) && file[32..] == large + rest;
    SmallIsRead(s, mkfsTime, comp, blockLog, large + rest);
    LargeIsRead(s, rest);
    RootParts(s.rootBlock, s.rootOffset);
  }

  lemma {:induction false} SmallIsRead(s: Super, mkfsTime: nat, comp: nat, blockLog: nat, rest: bytes)
    requires SuperFits(s) && comp < 65536 && blockLog < 65536
    ensures Decode(Encode(SmallFields(s, mkfsTime, comp, blockLog)) + rest, SMALL) ==
      Some([MAGIC, s.inodes, mkfsTime % MAX32, s.blockSize, s.fragments, comp, blockLog, FLAGS, 1, 4, 0])
  {
    hide Decode, Encode;
    Pow256Values();
    ReadFields(SmallFields(s, mkfsTime, comp, blockLog), rest, SMALL,
               [MAGIC, s.inodes, mkfsTime % MAX32, s.blockSize, s.fragments, comp, blockLog, FLAGS, 1, 4, 0]);
  }

  lemma {:induction false} LargeIsRead(s: Super, rest: bytes)
    requires SuperFits(s)
    ensures Decode(Encode(LargeFields(s)) + rest, LARGE) ==
      Some([s.rootBlock * 65536 + s.rootOffset, s.used, s.idTable, NO_TABLE,
        s.inodeTable, s.dirTable, s.fragTable, NO_TABLE])
  {
    hide Decode, Encode;
    Pow256Eight();
    ReadFields(LargeFields(s), rest, LARGE,
               [s.rootBlock * 65536 + s.rootOffset, s.used, s.idTable, NO_TABLE,
                 s.inodeTable, s.dirTable, s.fragTable, NO_TABLE]);
  }

  lemma {:induction false} RootParts(block: nat, offset: nat)
    requires offset < 65536
    ensures (block * 65536 + offset) / 65536 == block && (block * 65536 + offset) % 65536 == offset
  {
  }

  /** The index of the highest bit of the block size, as the loop at writer.go:555-558 finds it. */
  method BlockLog(blockSize: nat) returns (log: nat)
    requires 0 < blockSize
    ensures log == HighBit(blockSize)
  {
    log := 0;
    var bs := blockSize;
    while bs > 1
      invariant bs > 0 && HighBit(blockSize) == log + HighBit(bs)
      decreases bs
    {
      HalfBit(bs);
      bs := bs / 2;
      log := log + 1;
    }
    HighBitUnique(1, 0);
  }

  lemma {:induction false} LogFits(blockSize: nat)
    requires 0 < blockSize < RAW_BIT
    ensures HighBit(blockSize) < 24
  {
    var h := HighBit(blockSize);
    if h >= 24 {
      Pow2Mono(24, h);
      Pow2Add(12, 12);
      Pow2Values();
    }
  }

  lemma {:induction false} HalfBit(n: nat)
    requires n > 1
    ensures HighBit(n) == HighBit(n / 2) + 1
  {
    HighBitUnique(n, HighBit(n / 2) + 1);
  }
}
