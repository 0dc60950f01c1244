/** The fixup pass of the squashfs writer (pkg/lib/squashfs/writer.go:494-516): placeholders are
    overwritten in place, once the places of all blocks are known. */
module SquashFixups {
  import opened Arith
  import opened SquashBytes
  import opened SquashMeta
  import opened SquashInode
  import opened SquashBuild

  /** Listings that a fixup refers to lie in the directory table. */
  predicate Inside(fx: seq<InodeFixup>, size: nat) {
    forall i :: 0 <= i < |fx| ==> fx[i].dirRawPos < size
  }

  lemma {:induction false} ApplyOneMore(s: bytes, at: nat, b: bytes, i: nat)
    requires at + |b| <= |s| && i < |b|
    ensures Apply(s, Patch(at, b[..i + 1])) == Apply(s, Patch(at, b[..i]))[at + i := b[i]]
  {
  }

  /** `binary.LittleEndian.PutUint..`, in place. */
  method PutUint(a: array<byte>, at: nat, v: nat, k: nat)
    requires at + k <= a.Length
    modifies a
    ensures a[..] == Apply(old(a[..]), Patch(at, LE(v, k)))
  {
    var digits := LE(v, k);
    var i := 0;
    while i < k
      invariant i <= k
      invariant a[..] == Apply(old(a[..]), Patch(at, digits[..i]))
    {
      a[at + i] := digits[i];
      ApplyOneMore(old(a[..]), at, digits, i);
      i := i + 1;
    }
    assert digits[..k] == digits;
  }

  method ToArray(s: bytes) returns (a: array<byte>)
    ensures fresh(a) && a[..] == s
  {
    a := new byte[|s|](i requires 0 <= i < |s| => s[i]);
    assert a[..] == s;
  }

  /** Block offsets as a table of this size has them. */
  predicate OffsetsOk(offsets: seq<nat>, size: nat) {
    && |offsets| == (size + META - 1) / META
    && forall j :: 0 <= j < |offsets| ==> offsets[j] == j * (META + 2)
  }

  lemma {:induction false} BlockOf(offsets: seq<nat>, size: nat, p: nat)
    requires OffsetsOk(offsets, size) && p < size
    ensures p / META < |offsets| && offsets[p / META] == RefBlock(p)
  {
  }

  predicate PositionsInside(fx: seq<EntryFixup>, pos: map<nat, nat>, size: nat)
    requires Known(fx, pos)
  {
    forall i :: 0 <= i < |fx| ==> pos[fx[i].firstInodeNum] < size
  }

  lemma {:induction false} ApplyNext(s: bytes, ps: seq<Patch>, i: nat)
    requires AllInRange(|s|, ps) && i < |ps|
    ensures AllInRange(|s|, ps[..i]) && AllInRange(|s|, ps[..i + 1]) && InRange(|s|, ps[i])
    ensures ApplyAll(s, ps[..i + 1]) == Apply(ApplyAll(s, ps[..i]), ps[i])
  {
    assert ps[..i + 1][..i] == ps[..i];
  }

  /** The start fields of all directory groups. */
  method PatchEntries(data: array<byte>, fx: seq<EntryFixup>, pos: map<nat, nat>, offsets: seq<nat>, ghost size: nat)
    requires Known(fx, pos) && AllInRange(data.Length, EntryPatches(fx, pos))
    requires OffsetsOk(offsets, size) && PositionsInside(fx, pos, size)
    modifies data
    ensures data[..] == ApplyAll(old(data[..]), EntryPatches(fx, pos))
  {
    ghost var ps := EntryPatches(fx, pos);
    var i := 0;
    while i < |fx|
      invariant i <= |fx| && AllInRange(data.Length, ps[..i])
      invariant data[..] == ApplyAll(old(data[..]), ps[..i])
    {
      var rawPos := pos[fx[i].firstInodeNum];
      BlockOf(offsets, size, rawPos);
      ApplyNext(old(data[..]), ps, i);
      PutUint(data, fx[i].dirRawOffset, offsets[rawPos / META], 4);
      i := i + 1;
    }
    assert ps[..i] == ps;
  }

  lemma {:induction false} ApplyDirPatches(s: bytes, ps: seq<Patch>, at: nat, listing: nat)
    requires AllInRange(|s|, ps + DirPatches(at, listing))
    ensures AllInRange(|s|, ps) && at + 12 <= |s|
    ensures ApplyAll(s, ps + DirPatches(at, listing))
      == Apply(Apply(ApplyAll(s, ps), Patch(at, LE(RefBlock(listing), 4))), Patch(at + 10, LE(RefOffset(listing), 2)))
  {
    var all := ps + DirPatches(at, listing);
    assert forall i :: 0 <= i < |ps| ==> ps[i] == all[i];
    assert InRange(|s|, all[|ps| + 1]);
    assert all[..|ps| + 2] == all && all[..|ps|] == ps;
    ApplyNext(s, all, |ps|);
    ApplyNext(s, all, |ps| + 1);
  }

  lemma {:induction false} SomeInRange(size: nat, fx: seq<InodeFixup>, i: nat)
    requires i <= |fx| && AllInRange(size, InodePatches(fx))
    ensures AllInRange(size, InodePatches(fx[..i]))
    decreases |fx| - i
  {
    if i == |fx| {
      assert fx[..i] == fx;
    } else {
      SomeInRange(size, fx, i + 1);
      assert fx[..i + 1][..i] == fx[..i];
      var f := fx[i];
      var a, b := InodePatches(fx[..i]), DirPatches(f.inodeRawOffset, f.dirRawPos);
      assert forall j :: 0 <= j < |a| ==> a[j] == (a + b)[j];
    }
  }

  /** The listing references of all directory inodes. */
  method PatchInodes(data: array<byte>, fx: seq<InodeFixup>, offsets: seq<nat>, ghost size: nat)
    requires AllInRange(data.Length, InodePatches(fx)) && OffsetsOk(offsets, size) && Inside(fx, size)
    modifies data
    ensures data[..] == ApplyAll(old(data[..]), InodePatches(fx))
  {
    var i := 0;
    while i < |fx|
      invariant i <= |fx| && AllInRange(data.Length, InodePatches(fx[..i]))
      invariant data[..] == ApplyAll(old(data[..]), InodePatches(fx[..i]))
    {
      var f := fx[i];
      BlockOf(offsets, size, f.dirRawPos);
      SomeInRange(data.Length, fx, i + 1);
      assert fx[..i + 1] == fx[..i] + [f];
      InodePatchesGrow(fx[..i], f);
      ApplyDirPatches(old(data[..]), InodePatches(fx[..i]), f.inodeRawOffset, f.dirRawPos);
      PutUint(data, f.inodeRawOffset, offsets[f.dirRawPos / META], 4);
      PutUint(data, f.inodeRawOffset + 10, f.dirRawPos % META, 2);
      i := i + 1;
    }
    assert fx[..i] == fx;
  }
}
