/** Block accounting of the ext4 formatter (pkg/lib/mkfs/ext4.go): block groups, their free-block counts
    and their block bitmaps. */
module Ext4 {

  const BLOCK_SIZE: nat := 4096
  const BLOCKS_PER_GROUP: nat := 32768
  const INODES_PER_GROUP: nat := 8192
  const INODE_SIZE: nat := 256
  const INODE_TABLE_BLOCKS: nat := INODES_PER_GROUP * INODE_SIZE / BLOCK_SIZE
  const DESCRIPTOR_SIZE: nat := 32
  const MAX32: nat := 0x1_0000_0000

  function U32(n: int): nat {
    n % MAX32
  }

  function U16(n: int): nat {
    n % 65536
  }

  // ----- backup superblocks -----

  function Power(p: nat, k: nat): nat {
    if k == 0 then 1 else p * Power(p, k - 1)
  }

  ghost predicate IsPowerOf(p: nat, g: nat) {
    exists k: nat :: k >= 1 && Power(p, k) == g
  }

  /** With sparse superblocks: groups 0 and 1 and the powers of 3, 5 and 7. */
  ghost predicate IsBackupGroup(g: nat) {
    g <= 1 || IsPowerOf(3, g) || IsPowerOf(5, g) || IsPowerOf(7, g)
  }

  lemma {:induction false} PowersGrow(p: nat, j: nat, k: nat)
    requires p >= 2 && j < k
    ensures Power(p, j) < Power(p, k) && Power(p, j) >= 1
    decreases k
  {
    PowerPositive(p, k - 1);
    if j < k - 1 {
      PowersGrow(p, j, k - 1);
    }
  }

  lemma {:induction false} PowerPositive(p: nat, k: nat)
    requires p >= 2
    ensures Power(p, k) >= 1
  {
    if k > 0 {
      PowerPositive(p, k - 1);
    }
  }

  /** Multiply until the group number is reached; group numbers are far below the point where that wraps. */
  method IsPower(p: nat, g: nat) returns (b: bool)
    requires 2 <= p <= 7 && 7 * g < MAX32
    ensures b <==> IsPowerOf(p, g)
  {
    var n := p;
    ghost var k := 1;
    assert Power(p, 1) == p * Power(p, 0);
    while n < g
      invariant k >= 1 && n == Power(p, k)
      invariant forall j :: 1 <= j < k ==> Power(p, j) < g
      decreases g - n
    {
      NextPower(p, n, k, g);
      n := U32(n * p);
      k := k + 1;
    }
    b := n == g;
    NoOtherPower(p, k, g);
  }

  lemma {:induction false} NextPower(p: nat, n: nat, k: nat, g: nat)
    requires 2 <= p <= 7 && n == Power(p, k) < g && 7 * g < MAX32
    ensures n < n * p < MAX32 && Power(p, k + 1) == n * p
  {
    PowerPositive(p, k);
    Step(p, n, g);
  }

  /** With the powers below `k` below `g` and the k-th not, no other power is `g`. */
  lemma {:induction false} NoOtherPower(p: nat, k: nat, g: nat)
    requires p >= 2 && k >= 1 && Power(p, k) >= g && forall j :: 1 <= j < k ==> Power(p, j) < g
    ensures Power(p, k) == g <==> IsPowerOf(p, g)
  {
    forall j | j > k ensures Power(p, j) > g {
      PowersGrow(p, k, j);
    }
  }

  lemma {:induction false} Step(p: nat, n: nat, g: nat)
    requires 2 <= p <= 7 && n < g && 7 * g < MAX32 && n >= 1
    ensures n < n * p < MAX32
  {
  }

  /** `hasSuperblockBackup`. */
  method HasSuperblockBackup(g: nat) returns (b: bool)
    requires 7 * g < MAX32
    ensures b <==> IsBackupGroup(g)
  {
    if g <= 1 {
      return true;
    }
    b := IsPower(3, g);
    if !b {
      b := IsPower(5, g);
    }
    if !b {
      b := IsPower(7, g);
    }
  }

  // ----- groups -----

  function NumGroups(totalBlocks: nat): (n: nat)
    ensures n >= 1
  {
    var n := U32(totalBlocks + BLOCKS_PER_GROUP - 1) / BLOCKS_PER_GROUP;
    if n == 0 then 1 else n
  }

  /** The groups cover the image exactly up to 2^32 - 32768 blocks; above that the count wraps to 1. */
  lemma {:induction false} GroupsCover(totalBlocks: nat)
    requires totalBlocks < MAX32
    ensures totalBlocks <= NumGroups(totalBlocks) * BLOCKS_PER_GROUP <==> totalBlocks <= MAX32 - BLOCKS_PER_GROUP
    ensures totalBlocks > MAX32 - BLOCKS_PER_GROUP ==> NumGroups(totalBlocks) == 1
  {
  }

  function GdtBlocks(groups: nat): nat {
    (groups * DESCRIPTOR_SIZE + BLOCK_SIZE - 1) / BLOCK_SIZE
  }

  datatype GroupInfo = GroupInfo(start: nat, bbm: nat, ibm: nat, itable: nat, firstData: nat,
                                 overhead: nat, blocks: nat, backup: bool)

  ghost function GroupAt(g: nat, totalBlocks: nat): GroupInfo {
    var start := g * BLOCKS_PER_GROUP;
    var left := if totalBlocks > start then totalBlocks - start else 0;
    var blocks := if left < BLOCKS_PER_GROUP then left else BLOCKS_PER_GROUP;
    var backup := IsBackupGroup(g);
    var sb := if backup then 1 + GdtBlocks(NumGroups(totalBlocks)) else 0;
    var bbm := start + sb;
    GroupInfo(start, bbm, bbm + 1, bbm + 2, bbm + 2 + INODE_TABLE_BLOCKS, sb + 2 + INODE_TABLE_BLOCKS, blocks, backup)
  }

  /** The number of blocks is a uint32. */
  predicate Fits(totalBlocks: nat) {
    totalBlocks < MAX32
  }

  lemma {:induction false} SmallNumbers(totalBlocks: nat, g: nat)
    requires Fits(totalBlocks) && g < NumGroups(totalBlocks)
    ensures 7 * g < MAX32 && g * BLOCKS_PER_GROUP + BLOCKS_PER_GROUP < MAX32
    ensures GdtBlocks(NumGroups(totalBlocks)) <= 1024 && GroupAt(g, totalBlocks).overhead < 2000
    ensures g > 0 ==> g * BLOCKS_PER_GROUP < totalBlocks
  {
  }

  /** The places of a group's metadata, in 32-bit arithmetic. */
  method Place(start: nat, sb: nat, blocks: nat, backup: bool) returns (gi: GroupInfo)
    requires start + sb + 1000 < MAX32
    ensures gi == GroupInfo(start, start + sb, start + sb + 1, start + sb + 2, start + sb + 2 + INODE_TABLE_BLOCKS,
                            sb + 2 + INODE_TABLE_BLOCKS, blocks, backup)
  {
    var bbm := U32(start + sb);
    var ibm := U32(bbm + 1);
    var itable := U32(ibm + 1);
    gi := GroupInfo(start, bbm, ibm, itable, U32(itable + INODE_TABLE_BLOCKS),
      U32(sb + 2 + INODE_TABLE_BLOCKS), blocks, backup);
  }

  /** The last group may be short. */
  method BlocksInGroup(start: nat, totalBlocks: nat) returns (blocks: nat)
    requires start + BLOCKS_PER_GROUP < MAX32 && start <= totalBlocks
    ensures blocks == if totalBlocks - start < BLOCKS_PER_GROUP then totalBlocks - start else BLOCKS_PER_GROUP
  {
    blocks := BLOCKS_PER_GROUP;
    if U32(start + blocks) > totalBlocks {
      blocks := U32(totalBlocks - start);
    }
  }

  /** The layout loop's body for one group. */
  method LayoutGroup(g: nat, totalBlocks: nat, sbGdtBlocks: nat) returns (gi: GroupInfo)
    requires Fits(totalBlocks) && g < NumGroups(totalBlocks) && sbGdtBlocks == 1 + GdtBlocks(NumGroups(totalBlocks))
    ensures gi == GroupAt(g, totalBlocks)
  {
    SmallNumbers(totalBlocks, g);
    var start := U32(g * BLOCKS_PER_GROUP);
    assert start == g * BLOCKS_PER_GROUP;
    var blocks := BlocksInGroup(start, totalBlocks);
    var backup := HasSuperblockBackup(g);
    gi := Place(start, if backup then sbGdtBlocks else 0, blocks, backup);
  }

  /** Free blocks of a group as they should be: what metadata and the root directory leave. */
  ghost function FreeBlocks(g: nat, totalBlocks: nat): nat {
    var gi := GroupAt(g, totalBlocks);
    var used := gi.overhead + if g == 0 then 1 else 0;
    if used < gi.blocks then gi.blocks - used else 0
  }

  /** Group 0 has room for its metadata (and so for the root directory). */
  ghost predicate Room(totalBlocks: nat) {
    GroupAt(0, totalBlocks).overhead < GroupAt(0, totalBlocks).blocks
  }

  ghost function SumFree(n: nat, totalBlocks: nat): nat {
    if n == 0 then 0 else SumFree(n - 1, totalBlocks) + FreeBlocks(n - 1, totalBlocks)
  }

  lemma {:induction false} SumIsSmall(n: nat, totalBlocks: nat)
    requires Fits(totalBlocks) && n <= NumGroups(totalBlocks)
    ensures SumFree(n, totalBlocks) <= n * BLOCKS_PER_GROUP < MAX32
  {
    if n > 0 {
      SumIsSmall(n - 1, totalBlocks);
      SmallNumbers(totalBlocks, n - 1);
    }
  }

  /** The layout loop: all groups, and the superblock's free-block count. */
  method LayoutGroups(totalBlocks: nat) returns (groups: seq<GroupInfo>, totalFree: nat)
    requires Fits(totalBlocks)
    ensures |groups| == NumGroups(totalBlocks)
    ensures forall g :: 0 <= g < |groups| ==> groups[g] == GroupAt(g, totalBlocks)
    ensures totalFree == SumFree(NumGroups(totalBlocks), totalBlocks)
  {
    hide GroupAt, FreeBlocks, NumGroups, GdtBlocks;
    var numGroups := NumGroups(totalBlocks);
    var sbGdtBlocks := 1 + GdtBlocks(numGroups);
    groups, totalFree := [], 0;
    var g := 0;
    while g < numGroups
      invariant g == |groups| <= numGroups
      invariant forall i :: 0 <= i < g ==> groups[i] == GroupAt(i, totalBlocks)
      invariant totalFree == SumFree(g, totalBlocks)
    {
      var gi := LayoutGroup(g, totalBlocks, sbGdtBlocks);
      groups := groups + [gi];
      totalFree := AddFree(g, gi, totalBlocks, totalFree);
      g := g + 1;
    }
  }

  method AddFree(g: nat, gi: GroupInfo, totalBlocks: nat, free: nat) returns (sum: nat)
    requires Fits(totalBlocks) && g < NumGroups(totalBlocks) && gi == GroupAt(g, totalBlocks) &&
      free == SumFree(g, totalBlocks)
    ensures sum == SumFree(g + 1, totalBlocks)
  {
    SumIsSmall(g + 1, totalBlocks);
    sum := free;
    if gi.overhead < gi.blocks {
      var n := gi.blocks - gi.overhead;
      if g == 0 {
        n := n - 1;
      }
      sum := U32(sum + n);
    }
  }

  /** The free-block field of a group descriptor. */
  function DescriptorFree(g: nat, gi: GroupInfo): nat {
    var free := if gi.overhead < gi.blocks then gi.blocks - gi.overhead else 0;
    U16(U32(if g == 0 then free - 1 else free))
  }

  /** Descriptors say what is free, in group 0 exactly when it has room; otherwise they claim 65535. */
  lemma {:induction false} DescriptorsAreRight(g: nat, totalBlocks: nat)
    requires Fits(totalBlocks) && g < NumGroups(totalBlocks)
    ensures DescriptorFree(g, GroupAt(g, totalBlocks)) == FreeBlocks(g, totalBlocks) <==> g > 0 || Room(totalBlocks)
    ensures g == 0 && !Room(totalBlocks) ==> DescriptorFree(g, GroupAt(g, totalBlocks)) == 65535
  {
    SmallNumbers(totalBlocks, g);
  }

  /** An image of 100 blocks has no room for the metadata of its only group. */
  lemma {:induction false} SmallImageClaimsBlocks()
    ensures FreeBlocks(0, 100) == 0 && DescriptorFree(0, GroupAt(0, 100)) == 65535
  {
    DescriptorsAreRight(0, 100);
  }

  // ----- bitmaps -----

  function Mask(j: nat): bv8
    requires j < 8
  {
    match j
    case 0 => 1 case 1 => 2 case 2 => 4 case 3 => 8
    case 4 => 16 case 5 => 32 case 6 => 64 case 7 => 128
  }

  predicate Bit(s: seq<bv8>, i: nat)
    requires i < 8 * |s|
  {
    s[i / 8] & Mask(i % 8) != 0
  }

  lemma {:induction false} OneBit(b: bv8, j: nat, k: nat)
    requires j < 8 && k < 8
    ensures (b | Mask(j)) & Mask(k) != 0 <==> j == k || b & Mask(k) != 0
  {
  }

  method SetBit(a: array<bv8>, i: nat)
    requires i < 8 * a.Length
    modifies a
    ensures forall k :: 0 <= k < 8 * a.Length ==> (Bit(a[..], k) <==> k == i || old(Bit(a[..], k)))
  {
    a[i / 8] := a[i / 8] | Mask(i % 8);
    forall k | 0 <= k < 8 * a.Length ensures Bit(a[..], k) <==> k == i || old(Bit(a[..], k)) {
      if k / 8 == i / 8 {
        OneBit(old(a[i / 8]), i % 8, k % 8);
      }
    }
  }

  method SetRange(a: array<bv8>, lo: nat, hi: nat)
    requires hi <= 8 * a.Length
    modifies a
    ensures forall k :: 0 <= k < 8 * a.Length ==> (Bit(a[..], k) <==> lo <= k < hi || old(Bit(a[..], k)))
  {
    var i := lo;
    while i < hi
      invariant lo <= i && (i <= hi || i == lo)
      invariant forall k :: 0 <= k < 8 * a.Length ==> (Bit(a[..], k) <==> lo <= k < i || old(Bit(a[..], k)))
    {
      SetBit(a, i);
      i := i + 1;
    }
  }

  /** The block bitmap of a group. */
  method BlockBitmap(g: nat, gi: GroupInfo) returns (a: array<bv8>)
    requires gi.overhead < BLOCKS_PER_GROUP && gi.blocks <= BLOCKS_PER_GROUP
    ensures fresh(a) && a.Length == BLOCK_SIZE
    ensures IsBitmap(a[..], gi.overhead + (if g == 0 then 1 else 0), gi.blocks)
  {
    a := new bv8[BLOCK_SIZE](_ => 0);
    var overheadBits := gi.overhead;
    if g == 0 {
      overheadBits := overheadBits + 1;
    }
    SetRange(a, 0, overheadBits);
    if gi.blocks < BLOCKS_PER_GROUP {
      SetRange(a, gi.blocks, BLOCKS_PER_GROUP);
    }
  }

  predicate IsBitmap(s: seq<bv8>, used: nat, blocks: nat) {
    |s| == BLOCK_SIZE && forall k :: 0 <= k < BLOCKS_PER_GROUP ==> (Bit(s, k) <==> k < used || k >= blocks)
  }

  /** A block that must not be handed out: superblock, descriptors, bitmaps and inode table of its group,
      the root directory, or past the end of the image. */
  ghost predicate InUse(g: nat, totalBlocks: nat, b: nat) {
    var gi := GroupAt(g, totalBlocks);
    || (gi.backup && gi.start <= b < gi.start + 1 + GdtBlocks(NumGroups(totalBlocks)))
    || b == gi.bbm || b == gi.ibm || gi.itable <= b < gi.itable + INODE_TABLE_BLOCKS
    || (g == 0 && b == gi.firstData)
    || b >= totalBlocks
  }

  /** The set bits of a group's bitmap are exactly its blocks in use. */
  lemma {:induction false} BitmapMarksUse(s: seq<bv8>, g: nat, totalBlocks: nat, k: nat)
    requires Fits(totalBlocks) && g < NumGroups(totalBlocks) && k < BLOCKS_PER_GROUP
    requires IsBitmap(s, GroupAt(g, totalBlocks).overhead + (if g == 0 then 1 else 0), GroupAt(g, totalBlocks).blocks)
    ensures Bit(s, k) <==> InUse(g, totalBlocks, g * BLOCKS_PER_GROUP + k)
  {
    SmallNumbers(totalBlocks, g);
  }

  /** The block that byte `at` of a table starting at block `first` lies in. */
  function BlockOfByte(first: nat, at: nat): nat {
    first + at / BLOCK_SIZE
  }

  /** The descriptors of all groups, behind each copy of the superblock, and the inodes of the group lie in blocks in
      use, and the blocks kept for them are no more than they need. */
  lemma {:induction false} TablesLieInUse(g: nat, totalBlocks: nat, at: nat)
    requires Fits(totalBlocks) && g < NumGroups(totalBlocks)
    ensures var gi := GroupAt(g, totalBlocks);
      && (gi.backup && at < DESCRIPTOR_SIZE * NumGroups(totalBlocks) ==>
            InUse(g, totalBlocks, BlockOfByte(gi.start + 1, at)) && BlockOfByte(gi.start + 1, at) < gi.bbm)
      && (at < INODE_SIZE * INODES_PER_GROUP ==>
            InUse(g, totalBlocks, BlockOfByte(gi.itable, at)) && BlockOfByte(gi.itable, at) < gi.firstData)
    ensures (GdtBlocks(NumGroups(totalBlocks)) - 1) * BLOCK_SIZE < DESCRIPTOR_SIZE * NumGroups(totalBlocks)
    ensures (INODE_TABLE_BLOCKS - 1) * BLOCK_SIZE < INODE_SIZE * INODES_PER_GROUP
  {
    SmallNumbers(totalBlocks, g);
  }

  /** Clear bits among the first `n`. */
  function ClearBits(s: seq<bv8>, n: nat): nat
    requires n <= 8 * |s|
  {
    if n == 0 then 0 else ClearBits(s, n - 1) + if Bit(s, n - 1) then 0 else 1
  }

  lemma {:induction false} CountClear(s: seq<bv8>, used: nat, blocks: nat, n: nat)
    requires IsBitmap(s, used, blocks) && n <= BLOCKS_PER_GROUP
    ensures var end := if n < blocks then n else blocks;
      ClearBits(s, n) == if used < end then end - used else 0
    decreases n
  {
    if n > 0 {
      CountClear(s, used, blocks, n - 1);
      assert Bit(s, n - 1) <==> n - 1 < used || n - 1 >= blocks;
    }
  }

  lemma {:induction false} ClearBitsAreFree(s: seq<bv8>, g: nat, totalBlocks: nat)
    requires Fits(totalBlocks) && g < NumGroups(totalBlocks)
    requires IsBitmap(s, GroupAt(g, totalBlocks).overhead + (if g == 0 then 1 else 0), GroupAt(g, totalBlocks).blocks)
    ensures ClearBits(s, BLOCKS_PER_GROUP) == FreeBlocks(g, totalBlocks)
  {
    var gi := GroupAt(g, totalBlocks);
    CountClear(s, gi.overhead + (if g == 0 then 1 else 0), gi.blocks, BLOCKS_PER_GROUP);
  }

  // ----- the formatter -----

  function Sum(s: seq<nat>): nat {
    if s == [] then 0 else Sum(s[..|s| - 1]) + s[|s| - 1]
  }

  /** The bitmap of group `g` marks exactly the blocks in use. */
  ghost predicate MarksUse(s: seq<bv8>, g: nat, totalBlocks: nat) {
    |s| == BLOCK_SIZE &&
    forall k :: 0 <= k < BLOCKS_PER_GROUP ==> (Bit(s, k) <==> InUse(g, totalBlocks, g * BLOCKS_PER_GROUP + k))
  }

  /** The count is that of the clear bits, exactly under the condition. */
  predicate CountsClear(free: nat, s: seq<bv8>, condition: bool) {
    |s| == BLOCK_SIZE && (free == ClearBits(s, BLOCKS_PER_GROUP) <==> condition)
  }

  /** The bitmap of group `g` as the formatter writes it. */
  ghost predicate Written(s: seq<bv8>, g: nat, totalBlocks: nat) {
    IsBitmap(s, GroupAt(g, totalBlocks).overhead + (if g == 0 then 1 else 0), GroupAt(g, totalBlocks).blocks)
  }

  /** Descriptors and bitmaps of all groups. */
  method WriteGroups(totalBlocks: nat, groups: seq<GroupInfo>) returns (descriptors: seq<nat>, bitmaps: seq<seq<bv8>>)
    requires Fits(totalBlocks) && |groups| == NumGroups(totalBlocks)
    requires forall g :: 0 <= g < |groups| ==> groups[g] == GroupAt(g, totalBlocks)
    ensures |descriptors| == |bitmaps| == |groups|
    ensures forall g :: 0 <= g < |groups| ==> descriptors[g] == DescriptorFree(g, GroupAt(g, totalBlocks))
    ensures forall g :: 0 <= g < |groups| ==> Written(bitmaps[g], g, totalBlocks)
  {
    descriptors, bitmaps := [], [];
    for g := 0 to |groups|
      invariant g == |descriptors| == |bitmaps|
      invariant forall i :: 0 <= i < g ==> descriptors[i] == DescriptorFree(i, GroupAt(i, totalBlocks))
      invariant forall i :: 0 <= i < g ==> Written(bitmaps[i], i, totalBlocks)
    {
      SmallNumbers(totalBlocks, g);
      var a := BlockBitmap(g, groups[g]);
      assert Written(a[..], g, totalBlocks);
      descriptors := descriptors + [DescriptorFree(g, groups[g])];
      bitmaps := bitmaps + [a[..]];
    }
  }

  lemma {:induction false} WrittenIsRight(s: seq<bv8>, g: nat, totalBlocks: nat)
    requires Fits(totalBlocks) && g < NumGroups(totalBlocks) && Written(s, g, totalBlocks)
    ensures MarksUse(s, g, totalBlocks) && ClearBits(s, BLOCKS_PER_GROUP) == FreeBlocks(g, totalBlocks)
    ensures CountsClear(DescriptorFree(g, GroupAt(g, totalBlocks)), s, g > 0 || Room(totalBlocks))
  {
    DescriptorsAreRight(g, totalBlocks);
    ClearBitsAreFree(s, g, totalBlocks);
    forall k | 0 <= k < BLOCKS_PER_GROUP ensures Bit(s, k) <==> InUse(g, totalBlocks, g * BLOCKS_PER_GROUP + k) {
      BitmapMarksUse(s, g, totalBlocks, k);
    }
  }

  /** Clear bits of all bitmaps. */
  function AllClear(bitmaps: seq<seq<bv8>>): nat {
    if bitmaps == [] then 0
    else
      var last := bitmaps[|bitmaps| - 1];
      AllClear(bitmaps[..|bitmaps| - 1]) + ClearBits(last, 8 * |last|)
  }

  lemma {:induction false} WrittenHasSize(s: seq<bv8>, g: nat, totalBlocks: nat)
    requires Written(s, g, totalBlocks)
    ensures 8 * |s| == BLOCKS_PER_GROUP
  {
  }

  lemma {:induction false} AllClearIsFree(bitmaps: seq<seq<bv8>>, totalBlocks: nat)
    requires Fits(totalBlocks) && |bitmaps| <= NumGroups(totalBlocks)
    requires forall g :: 0 <= g < |bitmaps| ==> Written(bitmaps[g], g, totalBlocks)
    ensures AllClear(bitmaps) == SumFree(|bitmaps|, totalBlocks)
    decreases |bitmaps|
  {
    hide Written, FreeBlocks, ClearBits, NumGroups, MarksUse, CountsClear, Room;
    if bitmaps != [] {
      AllClearIsFree(bitmaps[..|bitmaps| - 1], totalBlocks);
      WrittenHasSize(bitmaps[|bitmaps| - 1], |bitmaps| - 1, totalBlocks);
      WrittenIsRight(bitmaps[|bitmaps| - 1], |bitmaps| - 1, totalBlocks);
    }
  }

  /** The descriptors add up to the free blocks, or to 65535 more when group 0 has no room. */
  lemma {:induction false} DescriptorSum(descriptors: seq<nat>, totalBlocks: nat)
    requires Fits(totalBlocks) && |descriptors| <= NumGroups(totalBlocks)
    requires forall g :: 0 <= g < |descriptors| ==> descriptors[g] == DescriptorFree(g, GroupAt(g, totalBlocks))
    ensures Sum(descriptors) ==
      SumFree(|descriptors|, totalBlocks) + if Room(totalBlocks) || descriptors == [] then 0 else 65535
    decreases |descriptors|
  {
    if descriptors != [] {
      DescriptorSum(descriptors[..|descriptors| - 1], totalBlocks);
      DescriptorsAreRight(|descriptors| - 1, totalBlocks);
    }
  }

  /** The block side of `FormatExt4`, for every number of blocks: the bitmaps mark exactly the blocks in use and their
      clear bits add up to the superblock's count; the descriptors agree with the bitmaps, and with the superblock,
      exactly when group 0 has room for its metadata. */
  method FormatBlocks(totalBlocks: nat) returns (totalFree: nat, descriptors: seq<nat>, bitmaps: seq<seq<bv8>>)
    requires Fits(totalBlocks)
    ensures |descriptors| == |bitmaps| == NumGroups(totalBlocks)
    ensures forall g :: 0 <= g < |bitmaps| ==> MarksUse(bitmaps[g], g, totalBlocks)
    ensures forall g :: 0 <= g < |bitmaps| ==> CountsClear(descriptors[g], bitmaps[g], g > 0 || Room(totalBlocks))
    ensures AllClear(bitmaps) == totalFree
    ensures Sum(descriptors) == totalFree <==> Room(totalBlocks)
  {
    var groups;
    groups, totalFree := LayoutGroups(totalBlocks);
    descriptors, bitmaps := WriteGroups(totalBlocks, groups);
    forall g | 0 <= g < |groups|
      ensures MarksUse(bitmaps[g], g, totalBlocks) &&
        CountsClear(descriptors[g], bitmaps[g], g > 0 || Room(totalBlocks))
    {
      WrittenIsRight(bitmaps[g], g, totalBlocks);
    }
    AllClearIsFree(bitmaps, totalBlocks);
    DescriptorSum(descriptors, totalBlocks);
  }
}
