/** The daemon's container list and the state directory (pkg/controller/set.go, pkg/controller/del.go,
    pkg/daemon/disk-events.go), as a list that refines a map from names to records. */
module Controller {
  import opened Arith
  import opened Options
  import opened GenProtocol

  /** A state file: a config, or something that does not parse as one but may still show a generation. */
  datatype File = Doc(rec: Record) | Broken(gen: nat)

  // ----- names -----

  predicate NameStart(c: char) {
    'a' <= c <= 'z' || 'A' <= c <= 'Z' || '0' <= c <= '9'
  }

  predicate NameChar(c: char) {
    NameStart(c) || c == '_' || c == '.' || c == '-'
  }

  /** `ValidateName`. */
  predicate ValidName(n: string) {
    0 < |n| <= 128 && NameStart(n[0]) && forall i :: 0 <= i < |n| ==> NameChar(n[i])
  }

  const SUFFIX: string := ".json"

  function NameFromConfigFile(base: string): Option<string> {
    if |base| < 5 || base[|base| - 5..] != SUFFIX then None
    else if ValidName(base[..|base| - 5]) then Some(base[..|base| - 5])
    else None
  }

  predicate Contains(s: string, sub: string) {
    |s| >= |sub| && (s[..|sub|] == sub || (s != [] && Contains(s[1..], sub)))
  }

  predicate IsStateTempFile(base: string) {
    base != "" && base[0] == '.' && Contains(base, ".json.tmp-")
  }

  /** Exactly the valid names survive the way to a file name and back, dots included; and no state file
      is mistaken for a temporary one. */
  lemma {:induction false} NameRoundTrip(n: string)
    ensures NameFromConfigFile(n + SUFFIX) == Some(n) <==> ValidName(n)
    ensures ValidName(n) ==> !IsStateTempFile(n + SUFFIX)
  {
    var base := n + SUFFIX;
    assert base[|base| - 5..] == SUFFIX && base[..|base| - 5] == n;
  }

  // ----- events -----

  datatype Event = Modified | FileCreate | MovedTo | Deleted | MovedFrom | OtherEvent

  datatype Action = ActionUnknown | ActionIgnore | ActionLoad(name: string) | ActionDelete(name: string)

  /** `diskEventAction`, with the name it decided on. */
  function DiskEventAction(ev: Event, base: string): Action {
    if IsStateTempFile(base) then ActionIgnore
    else
      match NameFromConfigFile(base)
      case None => ActionUnknown
      case Some(name) =>
        match ev
        case Modified => ActionLoad(name)
        case FileCreate => ActionLoad(name)
        case MovedTo => ActionLoad(name)
        case Deleted => ActionDelete(name)
        case MovedFrom => ActionDelete(name)
        case OtherEvent => ActionUnknown
  }

  /** A state file that appears is loaded, one that goes away is dropped, under its own name. */
  lemma {:induction false} EventsReachTheirContainer(ev: Event, n: string)
    requires ValidName(n)
    ensures ev in {Modified, FileCreate, MovedTo} <==> DiskEventAction(ev, n + SUFFIX) == ActionLoad(n)
    ensures ev in {Deleted, MovedFrom} <==> DiskEventAction(ev, n + SUFFIX) == ActionDelete(n)
  {
    NameRoundTrip(n);
  }

  // ----- the list as a map -----

  ghost function Names(list: seq<Record>): set<string> {
    set i | 0 <= i < |list| :: list[i].name
  }

  /** The list holds each record of the map once. */
  ghost predicate Refines(list: seq<Record>, m: map<string, Record>) {
    && (forall i, j :: 0 <= i < j < |list| ==> list[i].name != list[j].name)
    && (forall n :: n in m <==> n in Names(list))
    && (forall i :: 0 <= i < |list| ==> m[list[i].name] == list[i])
  }

  ghost predicate Distinct(list: seq<Record>) {
    forall i, j :: 0 <= i < j < |list| ==> list[i].name != list[j].name
  }

  /** Where a name is found first; the length of the list if it is not. */
  function FirstIndex(list: seq<Record>, n: string): (i: nat)
    ensures i <= |list| && (i < |list| ==> list[i].name == n)
    ensures forall j :: 0 <= j < i ==> list[j].name != n
  {
    if list == [] then 0
    else if list[0].name == n then 0
    else
      var i := FirstIndex(list[1..], n);
      assert forall j :: 1 <= j < i + 1 ==> list[j] == list[1..][j - 1];
      i + 1
  }

  lemma {:induction false} FirstFound(list: seq<Record>, n: string)
    ensures n in Names(list) <==> FirstIndex(list, n) < |list|
  {
    if n in Names(list) {
      var i :| 0 <= i < |list| && list[i].name == n;
    }
  }

  /** What a lookup in the list shows of each name: its first record. */
  ghost function First(list: seq<Record>): (m: map<string, Record>)
    ensures m.Keys == Names(list)
    ensures forall n :: n in m ==> FirstIndex(list, n) < |list| && m[n] == list[FirstIndex(list, n)]
  {
    assert forall n :: n in Names(list) ==> FirstIndex(list, n) < |list| by {
      forall n | n in Names(list) ensures FirstIndex(list, n) < |list| {
        FirstFound(list, n);
      }
    }
    map n | n in Names(list) :: list[FirstIndex(list, n)]
  }

  /** A list refines a map exactly when its names are distinct, and the map is what a lookup shows. */
  lemma {:induction false} RefinesIff(list: seq<Record>, m: map<string, Record>)
    ensures Refines(list, m) <==> Distinct(list) && m == First(list)
  {
    if Refines(list, m) {
      forall n | n in m ensures n in First(list) && m[n] == First(list)[n] {
        FirstFound(list, n);
      }
    }
    if Distinct(list) && m == First(list) {
      forall i | 0 <= i < |list| ensures m[list[i].name] == list[i] {
        assert list[i].name in Names(list);
        FirstFound(list, list[i].name);
        var k := FirstIndex(list, list[i].name);
        assert k == i;
      }
    }
  }

  /** `r` in the place of the first record of its name, or at the end. */
  function Put(list: seq<Record>, r: Record): seq<Record> {
    var i := FirstIndex(list, r.name);
    if i < |list| then list[i := r] else list + [r]
  }

  lemma {:induction false} PutIndex(list: seq<Record>, r: Record, n: string)
    ensures FirstIndex(Put(list, r), n) ==
      if n == r.name || FirstIndex(list, n) < |list| then FirstIndex(list, n) else |Put(list, r)|
  {
    hide FirstIndex;
    var more, i := Put(list, r), FirstIndex(list, n);
    var k, p := FirstIndex(more, n), FirstIndex(list, r.name);
    assert more[p] == r;
    if k < |list| {
      assert more[k].name == list[k].name;
    }
    if i < |list| {
      assert more[i].name == list[i].name;
    }
  }

  /** In whatever list, a record that is put shows from then on, and no other name changes. */
  lemma {:induction false} PutShows(list: seq<Record>, r: Record)
    ensures First(Put(list, r)) == First(list)[r.name := r]
    ensures Distinct(list) ==> Distinct(Put(list, r))
  {
    hide FirstIndex;
    var more := Put(list, r);
    forall n ensures n in First(more) <==> n in First(list)[r.name := r] {
      FirstFound(list, n);
      FirstFound(more, n);
      PutIndex(list, r, n);
    }
    forall n | n in First(more) ensures First(more)[n] == First(list)[r.name := r][n] {
      FirstFound(list, n);
      FirstFound(more, n);
      PutIndex(list, r, n);
      PutIndex(list, r, r.name);
    }
  }

  /** How often a name is listed. */
  function Times(list: seq<Record>, n: string): nat {
    if list == [] then 0 else Times(list[..|list| - 1], n) + if list[|list| - 1].name == n then 1 else 0
  }

  lemma {:induction false} TimesPositive(list: seq<Record>, n: string)
    ensures Times(list, n) > 0 <==> n in Names(list)
  {
    if list != [] {
      TimesPositive(list[..|list| - 1], n);
      NamesAppend(list[..|list| - 1], list[|list| - 1]);
      assert list[..|list| - 1] + [list[|list| - 1]] == list;
    }
  }

  lemma {:induction false} TimesUpdated(list: seq<Record>, i: nat, r: Record, n: string)
    requires i < |list|
    ensures Times(list[i := r], n) + (if list[i].name == n then 1 else 0) ==
      Times(list, n) + if r.name == n then 1 else 0
  {
    var last := |list| - 1;
    if i < last {
      TimesUpdated(list[..last], i, r, n);
      assert list[i := r][..last] == list[..last][i := r];
    } else {
      assert list[i := r][..last] == list[..last];
    }
  }

  /** The list without the first record of a name, with the last record in its place. */
  function Dropped(list: seq<Record>, n: string): seq<Record> {
    var i := FirstIndex(list, n);
    if i < |list| then list[i := list[|list| - 1]][..|list| - 1] else list
  }

  /** Putting the last record in the place of the removed one loses nothing else. */
  lemma {:induction false} SwapRemoved(list: seq<Record>, m: map<string, Record>, i: nat)
    requires Refines(list, m) && i < |list|
    ensures Refines(list[i := list[|list| - 1]][..|list| - 1], m - {list[i].name})
  {
    var last, gone := |list| - 1, list[i].name;
    var less := list[i := list[last]][..last];
    forall n ensures n in m - {gone} <==> n in Names(less) {
      if n in m && n != gone {
        var j :| 0 <= j < |list| && list[j].name == n;
        assert less[if j == last then i else j].name == n;
      }
      if n in Names(less) {
        var j :| 0 <= j < |less| && less[j].name == n;
        assert list[if j == i then last else j].name == n;
      }
    }
  }

  lemma {:induction false} TimesDropped(list: seq<Record>, n: string, m: string)
    ensures Times(Dropped(list, n), m) == Times(list, m) - if m == n && n in Names(list) then 1 else 0
  {
    hide FirstIndex, Names;
    FirstFound(list, n);
    var i := FirstIndex(list, n);
    if i < |list| {
      TimesUpdated(list, i, list[|list| - 1], m);
    }
  }

  /** A name is gone from the list exactly when it was not listed more than once; the others stay. */
  lemma {:induction false} DroppedNames(list: seq<Record>, n: string)
    ensures Names(Dropped(list, n)) == if Times(list, n) > 1 then Names(list) else Names(list) - {n}
  {
    forall m ensures m in Names(Dropped(list, n)) <==>
      m in if Times(list, n) > 1 then Names(list) else Names(list) - {n} {
      TimesDropped(list, n, m);
      TimesPositive(list, m);
      TimesPositive(Dropped(list, n), m);
    }
  }

  /** One record is gone, the first of its name. */
  lemma {:induction false} DroppedRecords(list: seq<Record>, n: string)
    requires n in Names(list)
    ensures multiset(Dropped(list, n)) == multiset(list) - multiset{First(list)[n]}
  {
    hide FirstIndex;
    FirstFound(list, n);
    SwappedRecords(list, FirstIndex(list, n));
  }

  lemma {:induction false} SwappedRecords(list: seq<Record>, i: nat)
    requires i < |list|
    ensures multiset(list[i := list[|list| - 1]][..|list| - 1]) == multiset(list) - multiset{list[i]}
  {
    var last := |list| - 1;
    var x := list[i := list[last]];
    assert x[last] == list[last];
    assert multiset(x) == multiset(x[..last]) + multiset{list[last]} by {
      assert x == x[..last] + [x[last]];
    }
    assert multiset(x) == multiset(list) - multiset{list[i]} + multiset{list[last]};
    SameRest(multiset(x[..last]), multiset(list) - multiset{list[i]}, list[last]);
  }

  lemma {:induction false} SameRest(a: multiset<Record>, b: multiset<Record>, r: Record)
    requires a + multiset{r} == b + multiset{r}
    ensures a == b
  {
    assert a == a + multiset{r} - multiset{r};
    assert b == b + multiset{r} - multiset{r};
  }

  lemma {:induction false} DroppedShows(list: seq<Record>, n: string)
    requires Distinct(list)
    ensures Distinct(Dropped(list, n)) && First(Dropped(list, n)) == First(list) - {n}
  {
    FirstFound(list, n);
    RefinesIff(list, First(list));
    if n in Names(list) {
      SwapRemoved(list, First(list), FirstIndex(list, n));
    }
    RefinesIff(Dropped(list, n), First(list) - {n});
  }

  /** What a lookup of another name shows then: the record it showed before, unless the last record of the list is
      one of that name and moves in front of the others. */
  lemma {:induction false} DroppedOther(list: seq<Record>, n: string, m: string)
    requires m != n && m in Names(list)
    ensures m in Names(Dropped(list, n))
    ensures var last := list[|list| - 1];
      First(Dropped(list, n))[m] ==
      if last.name == m && FirstIndex(list, n) < FirstIndex(list, m) then last else First(list)[m]
  {
    hide FirstIndex, Times, First, Names;
    DroppedNames(list, n);
    FirstFound(list, m);
    FirstFound(Dropped(list, n), m);
    var less, i, k, last := Dropped(list, n), FirstIndex(list, n), FirstIndex(list, m), |list| - 1;
    var found := FirstIndex(less, m);
    if i < |list| {
      assert forall j :: 0 <= j < last && j != i ==> less[j] == list[j];
      assert i < last ==> less[i] == list[last];
    }
  }

  /** Dropping one container of a list that holds another one twice can change what is shown of the other. */
  lemma {:induction false} DropShowsOther(a: Record, b: Record, c: Record)
    requires a.name != b.name == c.name
    ensures Lookup(First([a, b, c]), b.name) == Some(b)
    ensures Lookup(First(Dropped([a, b, c], a.name)), b.name) == Some(c)
  {
    var list := [a, b, c];
    assert list[1].name == b.name && list[0].name == a.name;
    FirstFound(list, b.name);
    assert FirstIndex(list, a.name) == 0 && FirstIndex(list, b.name) == 1;
    DroppedOther(list, a.name, b.name);
  }

  // ----- dropping many -----

  /** The records of `list` whose name is among `names`, as often as before, and no other ones. */
  ghost predicate Kept(list: seq<Record>, less: seq<Record>, names: set<string>) {
    forall r: Record :: multiset(less)[r] == if r.name in names then multiset(list)[r] else 0
  }

  /** For every one of the first `i` records of `list` whose name is not among `names`, one of that name has been
      dropped. */
  ghost predicate Dropping(list: seq<Record>, less: seq<Record>, i: nat, names: set<string>) {
    && i <= |list|
    && (forall n :: Times(less, n) == Times(list, n) - if n in names then 0 else Times(list[..i], n))
    && (forall r: Record :: r.name in names ==> multiset(less)[r] == multiset(list)[r])
    && (Distinct(list) ==> Distinct(less) && First(less) == DropAll(First(list), list[..i], names))
  }

  lemma {:induction false} DroppingStarts(list: seq<Record>, names: set<string>)
    ensures Dropping(list, list, 0, names)
  {
    assert list[..0] == [];
  }

  lemma {:induction false} DroppingStep(list: seq<Record>, less: seq<Record>, i: nat, names: set<string>)
    requires Dropping(list, less, i, names) && i < |list|
    ensures Dropping(list, if list[i].name in names then less else Dropped(less, list[i].name), i + 1, names)
  {
    hide First, Dropped, Distinct, Names;
    var n := list[i].name;
    assert list[..i + 1][..i] == list[..i] && list[..i + 1][i] == list[i];
    if n !in names {
      DroppingTimes(list, less, i, names);
      DroppingRecords(list, less, i, names);
      if Distinct(list) {
        DroppedShows(less, n);
      }
    }
  }

  lemma {:induction false} DroppingTimes(list: seq<Record>, less: seq<Record>, i: nat, names: set<string>)
    requires Dropping(list, less, i, names) && i < |list| && list[i].name !in names
    ensures list[i].name in Names(less)
    ensures forall m :: Times(Dropped(less, list[i].name), m) ==
                        Times(list, m) - if m in names then 0 else Times(list[..i + 1], m)
  {
    hide First, Dropped, Distinct, Names, DropAll;
    var n := list[i].name;
    assert list[..i + 1][..i] == list[..i] && list[..i + 1][i] == list[i];
    TimesPart(list, i + 1, n);
    TimesPositive(less, n);
    forall m ensures Times(Dropped(less, n), m) == Times(list, m) - if m in names then 0 else Times(list[..i + 1], m) {
      TimesDropped(less, n, m);
    }
  }

  lemma {:induction false} DroppingRecords(list: seq<Record>, less: seq<Record>, i: nat, names: set<string>)
    requires Dropping(list, less, i, names) && i < |list| && list[i].name !in names && list[i].name in Names(less)
    ensures forall r: Record :: r.name in names ==> multiset(Dropped(less, list[i].name))[r] == multiset(list)[r]
  {
    hide Dropped, Distinct, Times, DropAll;
    DroppedRecords(less, list[i].name);
  }

  lemma {:induction false} TimesPart(list: seq<Record>, i: nat, n: string)
    requires i <= |list|
    ensures Times(list[..i], n) <= Times(list, n)
    decreases |list| - i
  {
    if i < |list| {
      TimesPart(list, i + 1, n);
      assert list[..i + 1][..i] == list[..i];
    } else {
      assert list[..i] == list;
    }
  }

  lemma {:induction false} DroppingEnds(list: seq<Record>, less: seq<Record>, names: set<string>)
    requires Dropping(list, less, |list|, names)
    ensures Kept(list, less, names) && First(less).Keys == First(list).Keys * names
    ensures Distinct(list) ==> Distinct(less) && First(less) == Restrict(First(list), names)
  {
    hide Times, Distinct, Kept, Names;
    assert list[..|list|] == list;
    DroppingEndsNames(list, less, names);
    DropAllIs(First(list), list, names);
    assert Distinct(list) ==> DropAll(First(list), list, names) == Restrict(First(list), names);
  }

  lemma {:induction false} DroppingEndsNames(list: seq<Record>, less: seq<Record>, names: set<string>)
    requires Dropping(list, less, |list|, names)
    ensures Kept(list, less, names) && First(less).Keys == First(list).Keys * names
  {
    hide Times, DropAll, Distinct;
    assert list[..|list|] == list;
    forall n ensures n in Names(less) <==> n in Names(list) && n in names {
      TimesPositive(list, n);
      TimesPositive(less, n);
    }
    forall r: Record ensures multiset(less)[r] == if r.name in names then multiset(list)[r] else 0 {
      if r in less {
        assert r.name in Names(less);
      }
    }
    assert Kept(list, less, names);
  }

  // ----- one name, as the protocol sees it -----

  function MemGen(m: map<string, Record>, n: string): nat {
    if n in m then m[n].gen else 0
  }

  /** `fileGeneration`: 0 for a missing or unreadable file. */
  function FileGen(files: map<string, File>, n: string): nat {
    if n !in files then 0 else match files[n] case Doc(r) => r.gen case Broken(g) => g
  }

  function Lookup(m: map<string, Record>, n: string): Option<Record> {
    if n in m then Some(m[n]) else None
  }

  predicate Readable(files: map<string, File>, n: string) {
    n in files ==> files[n].Doc?
  }

  function View(m: map<string, Record>, files: map<string, File>, n: string, pending: set<Record>): State
    requires Readable(files, n)
  {
    State(Lookup(m, n), if n in files then Some(files[n].rec) else None, pending)
  }

  /** Memory after `LoadFromDisk`. */
  function Loaded(m: map<string, Record>, files: map<string, File>, c: Record): map<string, Record> {
    if ValidName(c.name) && Takes(Lookup(m, c.name), c.name in files, c) then m[c.name := c] else m
  }

  lemma {:induction false} SetIsStep(
    m: map<string, Record>, files: map<string, File>, c: Record, r: Record, p: set<Record>)
    requires Readable(files, c.name)
    requires r == c.(gen := Bump(Max(Max(c.gen, MemGen(m, c.name)), FileGen(files, c.name))))
    ensures View(m[c.name := r], files[c.name := Doc(r)], c.name, p) == Apply(View(m, files, c.name, p), DaemonSet(c))
  {
  }

  /** Applying a read of a name is a step of that name's protocol, and touches no other name. */
  lemma {:induction false} LoadIsProtocolStep(
    m: map<string, Record>, files: map<string, File>, c: Record, p: set<Record>, n: string)
    requires ValidName(c.name) && c in p && Readable(files, n)
    ensures View(Loaded(m, files, c), files, n, p) ==
      if n == c.name then Apply(View(m, files, n, p), Load(c)) else View(m, files, n, p)
  {
  }

  // ----- reconciling -----

  function OnDisk(files: map<string, File>): set<string> {
    set n | n in files && ValidName(n)
  }

  /** Every state file is a config under its own name. */
  predicate WellFormed(files: map<string, File>) {
    forall n :: n in files && ValidName(n) ==> files[n].Doc? && files[n].rec.name == n
  }

  /** Names that some of the given files bring into memory. */
  function Brought(files: map<string, File>, from: set<string>): set<string>
    requires forall k :: k in from ==> k in files
  {
    set k | k in from && files[k].Doc? && files[k].rec.name in OnDisk(files) :: files[k].rec.name
  }

  /** Every one of the files `m` is a config under one of these names, no two under the same. */
  predicate EachBrings(files: map<string, File>, m: set<string>, names: set<string>)
    requires forall k :: k in m ==> k in files
  {
    && (forall k :: k in m ==> files[k].Doc? && files[k].rec.name in names)
    && (forall j, k :: j in m && k in m && j != k ==> files[j].rec.name != files[k].rec.name)
  }

  /** The files `m` bring in at most |m| names, and |m| only when all of them bring one of their own. */
  lemma {:induction false} BroughtSize(files: map<string, File>, m: set<string>)
    requires m <= OnDisk(files)
    ensures |Brought(files, m)| <= |m|
    ensures |Brought(files, m)| == |m| <==> EachBrings(files, m, OnDisk(files))
    decreases m
  {
    hide Brought, EachBrings;
    if m == {} {
      NothingBrought(files);
    } else {
      var k :| k in m;
      var rest := m - {k};
      assert rest + {k} == m;
      BroughtSize(files, rest);
      BroughtOneMore(files, rest, k);
      EachOneMore(files, rest, k);
    }
  }

  lemma {:induction false} NothingBrought(files: map<string, File>)
    ensures Brought(files, {}) == {} && EachBrings(files, {}, OnDisk(files))
  {
  }

  lemma {:induction false} EachOneMore(files: map<string, File>, m: set<string>, k: string)
    requires m <= OnDisk(files) && k in files && k !in m
    ensures EachBrings(files, m + {k}, OnDisk(files)) <==>
      && EachBrings(files, m, OnDisk(files)) && files[k].Doc? && files[k].rec.name in OnDisk(files)
      && files[k].rec.name !in Brought(files, m)
  {
    if files[k].Doc? && files[k].rec.name in Brought(files, m) {
      var j :| j in m && files[j].Doc? && files[j].rec.name == files[k].rec.name;
      assert j in m + {k} && k in m + {k};
    } else if files[k].Doc? && EachBrings(files, m, OnDisk(files)) {
      forall j | j in m ensures files[j].rec.name != files[k].rec.name {
        assert files[j].rec.name in Brought(files, m);
      }
    }
    if EachBrings(files, m + {k}, OnDisk(files)) {
      assert k in m + {k};
      forall j | j in m ensures j in m + {k} {
      }
    }
  }

  lemma {:induction false} BroughtAllIff(files: map<string, File>, m: set<string>)
    requires m <= OnDisk(files)
    ensures m <= Brought(files, m) <==> EachBrings(files, m, m)
  {
    if m <= Brought(files, m) {
      AllBroughtByEach(files, m);
    }
    if EachBrings(files, m, m) {
      EachBringsAll(files, m);
    }
  }

  lemma {:induction false} AllBroughtByEach(files: map<string, File>, m: set<string>)
    requires m <= OnDisk(files) && m <= Brought(files, m)
    ensures EachBrings(files, m, m)
  {
    var b := Brought(files, m);
    BroughtSize(files, m);
    SubsetSize(m, b);
    forall k | k in m ensures files[k].rec.name in m {
      assert files[k].rec.name in b;
    }
  }

  lemma {:induction false} EachBringsAll(files: map<string, File>, m: set<string>)
    requires m <= OnDisk(files) && EachBrings(files, m, m)
    ensures Brought(files, m) == m
  {
    assert |Brought(files, m)| == |m| by {
      BroughtSize(files, m);
      assert EachBrings(files, m, OnDisk(files));
    }
    SubsetSize(Brought(files, m), m);
  }

  /** Reconciling makes the names in memory those on disk exactly when the files without an entry are configs
      under each other's names. */
  lemma {:induction false} NamesMatchIff(files: map<string, File>, known: set<string>)
    ensures known * OnDisk(files) + Brought(files, OnDisk(files) - known) == OnDisk(files) <==>
            EachBrings(files, OnDisk(files) - known, OnDisk(files) - known)
  {
    var d := OnDisk(files);
    var b := Brought(files, d - known);
    BroughtAllIff(files, d - known);
    if d - known <= b {
      assert known * d + b == d;
    }
    if known * d + b == d {
      forall n | n in d - known ensures n in b {
        assert n in known * d + b;
      }
    }
  }

  // ----- the order in which files are loaded -----

  /** `order` lists the elements of `m`, each once. */
  ghost predicate Enumerates(order: seq<string>, m: set<string>) {
    && (forall n :: n in order <==> n in m)
    && (forall i, j :: 0 <= i < j < |order| ==> order[i] != order[j])
  }

  /** Memory after the files of `order` have been loaded, one after the other; those that do not parse are
      skipped. */
  function LoadAll(m: map<string, Record>, files: map<string, File>, order: seq<string>): map<string, Record> {
    if order == [] then m
    else LoadOne(LoadAll(m, files, order[..|order| - 1]), files, order[|order| - 1])
  }

  function LoadOne(m: map<string, Record>, files: map<string, File>, k: string): map<string, Record> {
    if k in files && files[k].Doc? then Loaded(m, files, files[k].rec) else m
  }

  /** File `k` holds a record of the container `n` that replaces `r` in memory. */
  predicate Overwrites(files: map<string, File>, k: string, n: string, r: Record) {
    k in files && files[k].Doc? && files[k].rec.name == n && Takes(Some(r), n in files, files[k].rec)
  }

  /** A loaded name keeps its entry, and an entry only changes to another record of its own generation or to a
      newer one. */
  lemma {:induction false} EntryStays(m: map<string, Record>, files: map<string, File>, order: seq<string>, n: string)
    requires n in m
    ensures n in LoadAll(m, files, order) && LoadAll(m, files, order)[n].gen >= m[n].gen
    ensures (forall k :: k in order ==> !Overwrites(files, k, n, m[n])) ==> LoadAll(m, files, order)[n] == m[n]
  {
    if order != [] {
      EntryStays(m, files, order[..|order| - 1], n);
      assert order[|order| - 1] in order;
    }
  }

  /** Whatever came before it, after a file that overwrites the entry has been loaded the entry is another one. */
  lemma {:induction false} LastOverwrites(
    m: map<string, Record>, files: map<string, File>, order: seq<string>, k: string, n: string)
    requires n in m && ValidName(n) && Overwrites(files, k, n, m[n])
    ensures n in LoadAll(m, files, order + [k]) && LoadAll(m, files, order + [k])[n] != m[n]
  {
    assert (order + [k])[..|order|] == order;
    EntryStays(m, files, order, n);
  }

  /** A container's entry survives the loading of the files `m` in every order exactly when none of them
      overwrites it. */
  lemma {:induction false} SurvivesIff(mem: map<string, Record>, files: map<string, File>, m: set<string>, n: string)
    requires n in mem && ValidName(n)
    ensures (forall order :: Enumerates(order, m) ==>
      n in LoadAll(mem, files, order) && LoadAll(mem, files, order)[n] == mem[n])
      <==> (forall k :: k in m ==> !Overwrites(files, k, n, mem[n]))
  {
    if forall k :: k in m ==> !Overwrites(files, k, n, mem[n]) {
      forall order | Enumerates(order, m) ensures n in LoadAll(mem, files, order) &&
        LoadAll(mem, files, order)[n] == mem[n] {
        EntryStays(mem, files, order, n);
      }
    } else {
      var k :| k in m && Overwrites(files, k, n, mem[n]);
      var before := SomeOrder(m - {k});
      LastOverwrites(mem, files, before, k, n);
      assert Enumerates(before + [k], m);
    }
  }

  lemma {:induction false} SomeOrder(m: set<string>) returns (order: seq<string>)
    ensures Enumerates(order, m)
    decreases m
  {
    order := [];
    if m != {} {
      var k :| k in m;
      var rest := SomeOrder(m - {k});
      order := rest + [k];
    }
  }

  lemma {:induction false} KeysAfter(
    m: map<string, Record>, files: map<string, File>, order: seq<string>, from: set<string>)
    requires Enumerates(order, from) && from <= OnDisk(files) && m.Keys <= OnDisk(files)
    ensures LoadAll(m, files, order).Keys == m.Keys + Brought(files, from)
  {
    if order == [] {
      assert from == {};
    } else {
      var init, k := order[..|order| - 1], order[|order| - 1];
      assert from - {k} + {k} == from;
      assert Enumerates(init, from - {k}) by {
        forall n ensures n in init <==> n in from - {k} {
          assert order == init + [k];
        }
      }
      KeysAfter(m, files, init, from - {k});
      BroughtOneMore(files, from - {k}, k);
    }
  }

  function Restrict(m: map<string, Record>, names: set<string>): map<string, Record> {
    map n | n in m && n in names :: m[n]
  }

  /** Memory without the records of `list` whose name is not among `names`. */
  function DropAll(m: map<string, Record>, list: seq<Record>, names: set<string>): map<string, Record> {
    if list == [] then m
    else
      var less, n := DropAll(m, list[..|list| - 1], names), list[|list| - 1].name;
      if n in names then less else less - {n}
  }

  lemma {:induction false} DropAllIs(m: map<string, Record>, list: seq<Record>, names: set<string>)
    ensures forall n :: n in DropAll(m, list, names) <==> n in m && (n in names || n !in Names(list))
    ensures forall n :: n in DropAll(m, list, names) ==> DropAll(m, list, names)[n] == m[n]
  {
    if list != [] {
      var init, r := list[..|list| - 1], list[|list| - 1];
      DropAllIs(m, init, names);
      assert init + [r] == list;
      NamesAppend(init, r);
    }
  }

  lemma {:induction false} ReconciledNames(
    kept: map<string, Record>, files: map<string, File>, order: seq<string>, known: set<string>)
    requires kept.Keys == known * OnDisk(files) && Enumerates(order, OnDisk(files) - known)
    ensures LoadAll(kept, files, order).Keys == known * OnDisk(files) + Brought(files, OnDisk(files) - known)
    ensures var missing := OnDisk(files) - known;
      LoadAll(kept, files, order).Keys == OnDisk(files) <==> EachBrings(files, missing, missing)
  {
    KeysAfter(kept, files, order, OnDisk(files) - known);
    NamesMatchIff(files, known);
  }

  /** The entries of `m` that none of the files of `order` overwrites are those of `after`. */
  ghost predicate Survive(
    m: map<string, Record>, after: map<string, Record>, files: map<string, File>, order: seq<string>) {
    forall n :: n in m && (forall k :: k in order ==> !Overwrites(files, k, n, m[n])) ==> n in after && after[n] == m[n]
  }

  /** Entries of `m` are kept, and the others are as in their files. */
  predicate AsInFiles(m: map<string, Record>, after: map<string, Record>, files: map<string, File>) {
    forall n :: n in after ==> if n in m then after[n] == m[n] else n in files && files[n] == Doc(after[n])
  }

  lemma {:induction false} ReconciledRecords(
    kept: map<string, Record>, files: map<string, File>, order: seq<string>, known: set<string>)
    requires kept.Keys == known * OnDisk(files) && Enumerates(order, OnDisk(files) - known)
    ensures Survive(kept, LoadAll(kept, files, order), files, order)
    ensures WellFormed(files) ==> LoadAll(kept, files, order).Keys == OnDisk(files)
    ensures WellFormed(files) ==> AsInFiles(kept, LoadAll(kept, files, order), files)
  {
    forall n | n in kept && (forall k :: k in order ==> !Overwrites(files, k, n, kept[n]))
      ensures n in LoadAll(kept, files, order) && LoadAll(kept, files, order)[n] == kept[n]
    {
      EntryStays(kept, files, order, n);
    }
    if WellFormed(files) {
      WellFormedLoads(kept, files, order, OnDisk(files) - known);
    }
  }

  /** With well-formed files every missing container is loaded from its own file, and nothing else changes. */
  lemma {:induction false} WellFormedLoads(
    m: map<string, Record>, files: map<string, File>, order: seq<string>, from: set<string>)
    requires WellFormed(files) && Enumerates(order, from) && from <= OnDisk(files) && from !! m.Keys
    ensures forall n :: n in LoadAll(m, files, order) <==> n in m || n in from
    ensures AsInFiles(m, LoadAll(m, files, order), files)
  {
    if order != [] {
      var init, k := order[..|order| - 1], order[|order| - 1];
      ShorterOrder(order, from);
      WellFormedLoads(m, files, init, from - {k});
      assert k in order && k in from;
    }
  }

  /** A file under another container's name is loaded over that container's entry, and its own name stays out. */
  lemma {:induction false} MisnamedFileOverwrites()
    ensures var own, other := Record("b", 1, "own"), Record("b", 2, "other");
      var files := map["a" := Doc(other), "b" := Doc(own)];
      && OnDisk(files) == {"a", "b"} && Overwrites(files, "a", "b", own)
      && LoadAll(map["b" := own], files, ["a"]) == map["b" := other]
  {
    var own, other := Record("b", 1, "own"), Record("b", 2, "other");
    var files := map["a" := Doc(other), "b" := Doc(own)];
    assert ValidName("a") && ValidName("b");
    assert ["a"][..0] == [];
    assert LoadAll(map["b" := own], files, []) == map["b" := own];
    assert LoadOne(map["b" := own], files, "a") == map["b" := other];
  }

  // ----- the first load of a daemon -----

  /** `containersFromDir`: the configs in the state directory, in the order of the directory. */
  function DirList(files: map<string, File>, order: seq<string>): seq<Record> {
    if order == [] then []
    else
      var k := order[|order| - 1];
      DirList(files, order[..|order| - 1]) + (if k in files && files[k].Doc? then [files[k].rec] else [])
  }

  /** No two configs in the directory carry the same Name. */
  predicate DistinctNames(files: map<string, File>, m: set<string>)
    requires forall k :: k in m ==> k in files
  {
    forall j, k :: j in m && k in m && j != k && files[j].Doc? && files[k].Doc? ==>
      files[j].rec.name != files[k].rec.name
  }

  lemma {:induction false} DirListHolds(files: map<string, File>, order: seq<string>, m: set<string>, n: string)
    requires Enumerates(order, m) && m <= OnDisk(files)
    ensures n in Names(DirList(files, order)) <==> exists k :: k in m && files[k].Doc? && files[k].rec.name == n
  {
    if order != [] {
      var init, k := order[..|order| - 1], order[|order| - 1];
      ShorterOrder(order, m);
      DirListHolds(files, init, m - {k}, n);
      assert k in order;
      if files[k].Doc? {
        NamesAppend(DirList(files, init), files[k].rec);
      } else {
        assert DirList(files, init) + [] == DirList(files, init);
      }
    }
  }

  lemma {:induction false} ShorterOrder(order: seq<string>, m: set<string>)
    requires Enumerates(order, m) && order != []
    ensures Enumerates(order[..|order| - 1], m - {order[|order| - 1]})
  {
    var init, k := order[..|order| - 1], order[|order| - 1];
    forall n ensures n in init <==> n in m - {k} {
      assert order == init + [k];
    }
  }

  lemma {:induction false} DistinctDir(files: map<string, File>, order: seq<string>, m: set<string>)
    requires Enumerates(order, m) && m <= OnDisk(files)
    ensures Distinct(DirList(files, order)) <==> DistinctNames(files, m)
  {
    if order != [] {
      var init, k := order[..|order| - 1], order[|order| - 1];
      ShorterOrder(order, m);
      assert k in order;
      DistinctDir(files, init, m - {k});
      var list := DirList(files, init);
      if files[k].Doc? {
        DirListHolds(files, init, m - {k}, files[k].rec.name);
        DistinctOneMore(list, files[k].rec);
      } else {
        assert list + [] == list;
      }
    }
  }

  lemma {:induction false} DistinctOneMore(list: seq<Record>, r: Record)
    ensures Distinct(list + [r]) <==> Distinct(list) && r.name !in Names(list)
  {
    var more := list + [r];
    if Distinct(more) {
      forall i | 0 <= i < |list| ensures list[i].name != r.name {
        assert more[i].name != more[|list|].name;
      }
      forall i, j | 0 <= i < j < |list| ensures list[i].name != list[j].name {
        assert more[i].name != more[j].name;
      }
    }
  }

  /** The list a daemon starts with refines some map exactly when the Names of the configs in the directory are
      distinct. */
  lemma {:induction false} DirListRefinesIff(files: map<string, File>, order: seq<string>)
    requires Enumerates(order, OnDisk(files))
    ensures (exists m :: Refines(DirList(files, order), m)) <==> DistinctNames(files, OnDisk(files))
  {
    var list := DirList(files, order);
    DistinctDir(files, order, OnDisk(files));
    if Distinct(list) {
      RefinesIff(list, First(list));
    }
  }

  /** Two files of one container: the list holds it twice. */
  lemma {:induction false} DirListMayRepeat(r: Record)
    ensures var files := map["a" := Doc(r), "b" := Doc(r)];
      OnDisk(files) == {"a", "b"} && DirList(files, ["a", "b"]) == [r, r] && !exists m :: Refines([r, r], m)
  {
    var files := map["a" := Doc(r), "b" := Doc(r)];
    assert ValidName("a") && ValidName("b");
    assert ["a", "b"][..1] == ["a"] && ["a"][..0] == [];
    assert DirList(files, []) == [];
    assert DirList(files, ["a"]) == [r];
    var list := [r, r];
    assert list[0].name == list[1].name;
  }

  class ContainerList {
    var list: seq<Record>
    var files: map<string, File>

    /** What the list shows of each name. */
    ghost function Mem(): map<string, Record>
      reads this
    {
      First(list)
    }

    constructor ()
      ensures list == [] && Mem() == map[] && files == map[]
    {
      list, files := [], map[];
    }

    method IndexOf(n: string) returns (idx: int)
      ensures idx == if n in Mem() then FirstIndex(list, n) else -1
      ensures n in Mem() ==> 0 <= idx < |list| && Mem()[n] == list[idx]
    {
      FirstFound(list, n);
      idx := 0;
      while idx < |list|
        invariant 0 <= idx <= |list|
        invariant forall j :: 0 <= j < idx ==> list[j].name != n
      {
        if list[idx].name == n {
          return;
        }
        idx := idx + 1;
      }
      idx := -1;
    }

    /** `setContainerByMemory`: a generation above the caller's copy, memory and file; memory and file get
        the same record. */
    method SetContainerByMemory(c: Record) returns (r: Record)
      modifies this
      ensures list == Put(old(list), r) && files == old(files)[c.name := Doc(r)]
      ensures Mem() == old(Mem())[c.name := r] && (Distinct(old(list)) ==> Distinct(list))
      ensures r == c.(gen := Bump(Max(Max(c.gen, MemGen(old(Mem()), c.name)), FileGen(old(files), c.name))))
      ensures forall p :: Readable(old(files), c.name) ==>
        View(Mem(), files, c.name, p) == Apply(View(old(Mem()), old(files), c.name, p), DaemonSet(c))
    {
      hide FirstIndex, Distinct, First, Names, Apply, View;
      ghost var m, before := Mem(), files;
      var idx := IndexOf(c.name);
      var gen := c.gen;
      if idx >= 0 {
        gen := Max(gen, list[idx].gen);
      }
      r := c.(gen := Bump(Max(gen, FileGen(files, c.name))));
      if c.name !in files || files[c.name] != Doc(r) {
        files := files[c.name := Doc(r)];
      }
      PutShows(list, r);
      FirstFound(list, c.name);
      if idx >= 0 {
        list := list[idx := r];
      } else {
        list := list + [r];
      }
      assert Mem() == m[c.name := r] && files == before[c.name := Doc(r)];
      forall p | Readable(before, c.name)
        ensures View(Mem(), files, c.name, p) == Apply(View(m, before, c.name, p), DaemonSet(c))
      {
        SetIsStep(m, before, c, r, p);
      }
    }

    /** `LoadFromDisk`: memory only, and only by something newer; never an entry whose file is gone. */
    method LoadFromDisk(c: Record) returns (changed: bool)
      modifies this`list
      ensures changed == (ValidName(c.name) && Takes(Lookup(old(Mem()), c.name), c.name in files, c))
      ensures list == if changed then Put(old(list), c) else old(list)
      ensures Mem() == Loaded(old(Mem()), files, c) && (Distinct(old(list)) ==> Distinct(list))
    {
      if !ValidName(c.name) {
        return false;
      }
      PutShows(list, c);
      FirstFound(list, c.name);
      var i := IndexOf(c.name);
      if i >= 0 {
        var m := list[i];
        if c.gen > m.gen || (c.gen == 0 && m.gen == 0 && c != m) {
          list := list[i := c];
          return true;
        }
        return false;
      }
      if c.name !in files {
        return false;
      }
      list := list + [c];
      return true;
    }

    /** `setContainerByDisk`. */
    method SetContainerByDisk(c: Record) returns (r: Record)
      modifies this`files
      ensures files == old(files)[c.name := Doc(r)]
      ensures r == c.(gen := Bump(Max(c.gen, FileGen(old(files), c.name))))
      ensures forall p :: Readable(old(files), c.name) ==>
        View(Mem(), files, c.name, p) == Apply(View(Mem(), old(files), c.name, p), DiskSet(c))
    {
      r := c.(gen := Bump(Max(c.gen, FileGen(files, c.name))));
      files := files[c.name := Doc(r)];
    }

    /** `DeleteContainer`. */
    method DeleteContainer(n: string) returns (found: bool)
      modifies this`list
      ensures list == Dropped(old(list), n) && found == (n in old(Mem()))
      ensures Mem().Keys == if Times(old(list), n) > 1 then old(Mem()).Keys else old(Mem()).Keys - {n}
      ensures Distinct(old(list)) ==> Distinct(list) && Mem() == old(Mem()) - {n}
    {
      hide Distinct, Times, First, Names, FirstIndex;
      DroppedNames(list, n);
      if Distinct(list) {
        DroppedShows(list, n);
      }
      FirstFound(list, n);
      var i := IndexOf(n);
      if i < 0 {
        return false;
      }
      var last := |list| - 1;
      list := list[i := list[last]];
      list := list[..last];
      return true;
    }

    /** What `loadByEvent` does with an event: a file that does not parse is left alone. */
    method HandleEvent(ev: Event, base: string)
      modifies this`list
      ensures match DiskEventAction(ev, base)
        case ActionLoad(n) =>
          Mem() == if n in files && files[n].Doc? then Loaded(old(Mem()), files, files[n].rec) else old(Mem())
        case ActionDelete(n) =>
          list == Dropped(old(list), n) && (Distinct(old(list)) ==> Mem() == old(Mem()) - {n})
        case _ => list == old(list)
      ensures Distinct(old(list)) ==> Distinct(list)
    {
      match DiskEventAction(ev, base)
      case ActionLoad(n) =>
        if n in files && files[n].Doc? {
          var _ := LoadFromDisk(files[n].rec);
        }
      case ActionDelete(n) => var _ := DeleteContainer(n);
      case _ =>
    }

    /** The first half of `reconcileState`: entries without a file go, however often they are listed. */
    method DropGone(onDisk: set<string>)
      modifies this`list
      ensures Kept(old(list), list, onDisk) && Mem().Keys == old(Mem()).Keys * onDisk
      ensures Distinct(old(list)) ==> Distinct(list) && Mem() == Restrict(old(Mem()), onDisk)
    {
      var snapshot := list;
      DroppingStarts(list, onDisk);
      for i := 0 to |snapshot|
        invariant Dropping(snapshot, list, i, onDisk)
      {
        DroppingStep(snapshot, list, i, onDisk);
        if snapshot[i].name !in onDisk {
          var _ := DeleteContainer(snapshot[i].name);
        }
      }
      DroppingEnds(snapshot, list, onDisk);
    }

    /** The second half: files without an entry are loaded, in any order. */
    method AddMissing(missing: set<string>) returns (ghost order: seq<string>)
      requires missing <= OnDisk(files)
      modifies this`list
      ensures Enumerates(order, missing) && Mem() == LoadAll(old(Mem()), files, order)
      ensures Distinct(old(list)) ==> Distinct(list)
    {
      order := [];
      var todo := missing;
      while todo != {}
        invariant todo <= missing && (Distinct(old(list)) ==> Distinct(list))
        invariant Enumerates(order, missing - todo) && Mem() == LoadAll(old(Mem()), files, order)
        decreases todo
      {
        var k :| k in todo;
        assert missing - (todo - {k}) == missing - todo + {k};
        if files[k].Doc? {
          var changed := LoadFromDisk(files[k].rec);
        }
        assert (order + [k])[..|order|] == order;
        order := order + [k];
        todo := todo - {k};
      }
      assert missing - todo == missing;
    }

    /** `reconcileState`, for all files and every list: the records without a file go, which leaves `kept`, and the
        files without an entry are loaded in some order. The names in memory are then those on disk exactly when
        those files are configs under each other's names. An entry that no such file overwrites keeps its record.
        With well-formed files nothing is overwritten, and new entries are as in their files. */
    method ReconcileState() returns (ghost kept: seq<Record>, ghost order: seq<string>)
      modifies this`list
      ensures Kept(old(list), kept, OnDisk(files)) && First(kept).Keys == old(Mem()).Keys * OnDisk(files)
      ensures Distinct(old(list)) ==> Distinct(list) && First(kept) == Restrict(old(Mem()), OnDisk(files))
      ensures Enumerates(order, OnDisk(files) - old(Mem()).Keys) && Mem() == LoadAll(First(kept), files, order)
      ensures Mem().Keys == old(Mem()).Keys * OnDisk(files) + Brought(files, OnDisk(files) - old(Mem()).Keys)
      ensures var missing := OnDisk(files) - old(Mem()).Keys;
        Mem().Keys == OnDisk(files) <==> EachBrings(files, missing, missing)
      ensures Survive(First(kept), Mem(), files, order)
      ensures WellFormed(files) ==> Mem().Keys == OnDisk(files) && AsInFiles(First(kept), Mem(), files)
    {
      var onDisk := OnDisk(files);
      var inMem := NameSet();
      DropGone(onDisk);
      kept := list;
      order := AddMissing(onDisk - inMem);
      ReconciledNames(First(kept), files, order, inMem);
      ReconciledRecords(First(kept), files, order, inMem);
    }

    /** `containersFromDir`, the first load of a daemon, in the order of the directory. */
    method LoadDir(order: seq<string>)
      requires Enumerates(order, OnDisk(files))
      modifies this`list
      ensures list == DirList(files, order)
      ensures Distinct(list) <==> DistinctNames(files, OnDisk(files))
    {
      list := [];
      for i := 0 to |order|
        invariant list == DirList(files, order[..i]) && files == old(files)
      {
        assert order[..i + 1][..i] == order[..i];
        assert order[i] in order;
        if files[order[i]].Doc? {
          list := list + [files[order[i]].rec];
        } else {
          assert list + [] == list;
        }
      }
      assert order[..|order|] == order;
      DistinctDir(files, order, OnDisk(files));
    }

    method NameSet() returns (s: set<string>)
      ensures s == Mem().Keys
    {
      s := set i | 0 <= i < |list| :: list[i].name;
    }
  }

  lemma {:induction false} NamesAppend(list: seq<Record>, r: Record)
    ensures Names(list + [r]) == Names(list) + {r.name}
  {
    var more := list + [r];
    forall n ensures n in Names(more) <==> n in Names(list) + {r.name} {
      if n in Names(list) {
        var i :| 0 <= i < |list| && list[i].name == n;
        assert more[i].name == n;
      }
      assert more[|list|].name == r.name;
    }
  }

  lemma {:induction false} BroughtOneMore(files: map<string, File>, from: set<string>, k: string)
    requires forall j :: j in from ==> j in files
    requires k in files
    ensures Brought(files, from + {k}) ==
      Brought(files, from) + (if files[k].Doc? && files[k].rec.name in OnDisk(files) then {files[k].rec.name} else {})
  {
  }
}
