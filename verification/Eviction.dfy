// Cache eviction (workspace.rs): pruning one list of entries, and the two levels of caps over all
// workspace directories of one cache root.
module Eviction {
  const U64_MAX: nat := 0xFFFF_FFFF_FFFF_FFFF

  function SaturatingAdd(a: nat, b: nat): nat { if a + b > U64_MAX then U64_MAX else a + b }
  function SaturatingSub(a: nat, b: nat): nat { if a < b then 0 else a - b }

  datatype EntryPath = EntryPath(dir: nat, name: nat)

  // A `.cwb` entry; its size includes its sidecar's.
  datatype Entry = Entry(mtime: int, size: nat, path: EntryPath)

  // The caps of one level and the targets a prune over them aims for. The source's targets are 0.8
  // of the caps; any targets at or below the caps will do.
  datatype Caps = Caps(maxEntries: nat, maxBytes: nat, targetEntries: nat, targetBytes: nat) {
    ghost predicate Valid() { targetEntries <= maxEntries && targetBytes <= maxBytes }
  }

  function Sum(entries: seq<Entry>): nat {
    if entries == [] then 0 else Sum(entries[..|entries| - 1]) + entries[|entries| - 1].size
  }

  function SaturatingSum(entries: seq<Entry>): nat {
    if entries == [] then 0
    else SaturatingAdd(SaturatingSum(entries[..|entries| - 1]), entries[|entries| - 1].size)
  }

  predicate Within(entries: seq<Entry>, maxEntries: nat, maxBytes: nat) {
    |entries| <= maxEntries && Sum(entries) <= maxBytes
  }

  lemma {:induction false} NoSaturation(entries: seq<Entry>)
    ensures SaturatingSum(entries) <= Sum(entries)
    ensures SaturatingSum(entries) == if Sum(entries) <= U64_MAX then Sum(entries) else U64_MAX
  {
    if entries != [] {
      NoSaturation(entries[..|entries| - 1]);
    }
  }

  lemma {:induction false} SumAppend(a: seq<Entry>, b: seq<Entry>)
    ensures Sum(a + b) == Sum(a) + Sum(b)
    decreases |b|
  {
    if b == [] {
      assert a + b == a;
    } else {
      SumAppend(a, b[..|b| - 1]);
      assert (a + b)[..|a + b| - 1] == a + b[..|b| - 1];
    }
  }

  lemma SumOne(e: Entry)
    ensures Sum([e]) == e.size
  {
    assert [e][..0] == [];
  }

  // The byte counter tells the truth after the first removal exactly when the sizes sum below 2^64:
  // once saturated, it falls short of what is left, so eviction may stop above its target.
  lemma CounterIsExact(first: Entry, rest: seq<Entry>)
    requires first.size <= U64_MAX
    ensures SaturatingSub(SaturatingSum([first] + rest), first.size) == Sum(rest) <==> Sum([first] + rest) <= U64_MAX
  {
    NoSaturation([first] + rest);
    SumAppend([first], rest);
    SumOne(first);
  }

  lemma SumMiddle(before: seq<Entry>, e: Entry, after: seq<Entry>)
    ensures Sum(before + ([e] + after)) == Sum(before + after) + e.size
  {
    SumAppend(before, [e] + after);
    SumAppend([e], after);
    SumOne(e);
    SumAppend(before, after);
  }

  lemma SumWithout(entries: seq<Entry>, at: nat)
    requires at < |entries|
    ensures Sum(entries) == Sum(entries[..at] + entries[at + 1..]) + entries[at].size
  {
    SumMiddle(entries[..at], entries[at], entries[at + 1..]);
    assert entries == entries[..at] + ([entries[at]] + entries[at + 1..]);
  }

  lemma TakeOne(entries: seq<Entry>, at: nat)
    requires at < |entries|
    ensures multiset(entries[..at] + entries[at + 1..]) == multiset(entries) - multiset{entries[at]}
  {
    assert entries == entries[..at] + [entries[at]] + entries[at + 1..];
  }

  lemma {:induction false} SumOfPermutation(a: seq<Entry>, b: seq<Entry>)
    requires multiset(a) == multiset(b)
    ensures Sum(a) == Sum(b) && |a| == |b|
    decreases |a|
  {
    assert |multiset(a)| == |a| && |multiset(b)| == |b|;
    if a != [] {
      var e := a[|a| - 1];
      assert e in multiset(a);
      var at :| 0 <= at < |b| && b[at] == e;
      TakeOne(a, |a| - 1);
      TakeOne(b, at);
      assert a[..|a| - 1] + a[|a|..] == a[..|a| - 1];
      SumOfPermutation(a[..|a| - 1], b[..at] + b[at + 1..]);
      SumWithout(b, at);
    }
  }

  // ------------------------------------------------------------------ order and removal

  predicate OldestFirst(entries: seq<Entry>) {
    forall i, j | 0 <= i < j < |entries| :: entries[i].mtime <= entries[j].mtime
  }

  function Insert(sorted: seq<Entry>, e: Entry): (r: seq<Entry>)
    requires OldestFirst(sorted)
    ensures OldestFirst(r) && multiset(r) == multiset(sorted) + multiset{e}
  {
    if sorted != [] && sorted[|sorted| - 1].mtime > e.mtime then
      var last := sorted[|sorted| - 1];
      var rest := sorted[..|sorted| - 1];
      assert sorted == rest + [last];
      InsertBelow(rest, e, last);
      var inserted := Insert(rest, e);
      InsertAbove(rest, e, last, inserted);
      inserted + [last]
    else
      InsertLast(sorted, e);
      sorted + [e]
  }

  lemma InsertLast(sorted: seq<Entry>, e: Entry)
    requires OldestFirst(sorted) && (sorted == [] || sorted[|sorted| - 1].mtime <= e.mtime)
    ensures OldestFirst(sorted + [e]) && multiset(sorted + [e]) == multiset(sorted) + multiset{e}
  {
  }

  lemma InsertAbove(rest: seq<Entry>, e: Entry, last: Entry, inserted: seq<Entry>)
    requires OldestFirst(inserted) && multiset(inserted) == multiset(rest) + multiset{e}
    requires forall x | x in multiset(rest) + multiset{e} :: x.mtime <= last.mtime
    ensures OldestFirst(inserted + [last])
    ensures multiset(inserted + [last]) == multiset(rest + [last]) + multiset{e}
  {
    forall i | 0 <= i < |inserted|
      ensures inserted[i].mtime <= last.mtime
    {
      assert inserted[i] in multiset(inserted);
    }
  }

  lemma InsertBelow(sorted: seq<Entry>, e: Entry, last: Entry)
    requires OldestFirst(sorted + [last]) && e.mtime <= last.mtime
    ensures OldestFirst(sorted)
    ensures forall x | x in multiset(sorted) + multiset{e} :: x.mtime <= last.mtime
  {
    forall x | x in sorted
      ensures x.mtime <= last.mtime
    {
      var i :| 0 <= i < |sorted| && sorted[i] == x;
      assert (sorted + [last])[i] == x && (sorted + [last])[|sorted|] == last;
    }
    forall i, j | 0 <= i < j < |sorted|
      ensures sorted[i].mtime <= sorted[j].mtime
    {
      assert (sorted + [last])[i] == sorted[i] && (sorted + [last])[j] == sorted[j];
    }
  }

  // `sort_by_key` on the modification time.
  function SortByTime(entries: seq<Entry>): (r: seq<Entry>)
    ensures OldestFirst(r) && multiset(r) == multiset(entries)
  {
    if entries == [] then []
    else
      assert entries == entries[..|entries| - 1] + [entries[|entries| - 1]];
      Insert(SortByTime(entries[..|entries| - 1]), entries[|entries| - 1])
  }

  function WithTime(entries: seq<Entry>, mtime: int): seq<Entry> {
    if entries == [] then []
    else
      var last := entries[|entries| - 1];
      WithTime(entries[..|entries| - 1], mtime) + if last.mtime == mtime then [last] else []
  }

  lemma WithTimeNext(entries: seq<Entry>, e: Entry, mtime: int)
    ensures WithTime(entries + [e], mtime)
         == if e.mtime == mtime then WithTime(entries, mtime) + [e] else WithTime(entries, mtime)
  {
    assert (entries + [e])[..|entries|] == entries;
  }

  lemma {:induction false} InsertIsStable(sorted: seq<Entry>, e: Entry, mtime: int)
    requires OldestFirst(sorted)
    ensures WithTime(Insert(sorted, e), mtime) == WithTime(sorted + [e], mtime)
  {
    if sorted != [] && sorted[|sorted| - 1].mtime > e.mtime {
      var (rest, last) := (sorted[..|sorted| - 1], sorted[|sorted| - 1]);
      assert sorted == rest + [last];
      InsertBelow(rest, e, last);
      InsertIsStable(rest, e, mtime);
      WithTimeNext(Insert(rest, e), last, mtime);
      WithTimeNext(rest, last, mtime);
      WithTimeNext(rest, e, mtime);
      WithTimeNext(sorted, e, mtime);
    }
  }

  // Entries of one time stay in the order they were listed in.
  lemma {:induction false} SortIsStable(entries: seq<Entry>, mtime: int)
    ensures WithTime(SortByTime(entries), mtime) == WithTime(entries, mtime)
  {
    if entries != [] {
      var (rest, last) := (entries[..|entries| - 1], entries[|entries| - 1]);
      assert entries == rest + [last];
      SortIsStable(rest, mtime);
      InsertIsStable(SortByTime(rest), last, mtime);
      WithTimeNext(SortByTime(rest), last, mtime);
      WithTimeNext(rest, last, mtime);
    }
  }

  // The entries whose files are not among the removed paths.
  function Without(entries: seq<Entry>, removed: set<EntryPath>): seq<Entry> {
    if entries == [] then []
    else
      var last := entries[|entries| - 1];
      Without(entries[..|entries| - 1], removed) + if last.path in removed then [] else [last]
  }

  // The entries whose files could not be removed.
  function Stuck(entries: seq<Entry>, undeletable: set<EntryPath>): seq<Entry> {
    if entries == [] then []
    else
      var last := entries[|entries| - 1];
      Stuck(entries[..|entries| - 1], undeletable) + if last.path in undeletable then [last] else []
  }

  function Paths(entries: seq<Entry>): set<EntryPath> { set e | e in entries :: e.path }

  // No two entries of one listing name the same file.
  ghost predicate Distinct(entries: multiset<Entry>) {
    forall e, f | e in entries && f in entries && e.path == f.path :: e == f && entries[e] == 1
  }

  lemma {:induction false} WithoutCount(entries: seq<Entry>, removed: set<EntryPath>, e: Entry)
    ensures multiset(Without(entries, removed))[e] == if e.path in removed then 0 else multiset(entries)[e]
  {
    if entries != [] {
      assert entries == entries[..|entries| - 1] + [entries[|entries| - 1]];
      WithoutCount(entries[..|entries| - 1], removed, e);
    }
  }

  lemma WithoutPermutes(a: seq<Entry>, b: seq<Entry>, removed: set<EntryPath>)
    requires multiset(a) == multiset(b)
    ensures multiset(Without(a, removed)) == multiset(Without(b, removed))
  {
    forall e
      ensures multiset(Without(a, removed))[e] == multiset(Without(b, removed))[e]
    {
      WithoutCount(a, removed, e);
      WithoutCount(b, removed, e);
    }
  }

  lemma WithoutStaysDistinct(entries: seq<Entry>, removed: set<EntryPath>)
    requires Distinct(multiset(entries))
    ensures Distinct(multiset(Without(entries, removed)))
  {
    forall e, f | e in Without(entries, removed) && f in Without(entries, removed) && e.path == f.path
      ensures e == f && multiset(Without(entries, removed))[e] == 1
    {
      assert e in multiset(Without(entries, removed)) && f in multiset(Without(entries, removed));
      WithoutCount(entries, removed, e);
      WithoutCount(entries, removed, f);
      assert e in multiset(entries) && f in multiset(entries);
    }
  }

  lemma {:induction false} WithoutAppend(a: seq<Entry>, b: seq<Entry>, removed: set<EntryPath>)
    ensures Without(a + b, removed) == Without(a, removed) + Without(b, removed)
    decreases |b|
  {
    if b == [] {
      assert a + b == a;
    } else {
      WithoutAppend(a, b[..|b| - 1], removed);
      assert (a + b)[..|a + b| - 1] == a + b[..|b| - 1];
    }
  }

  lemma {:induction false} WithoutNone(entries: seq<Entry>, removed: set<EntryPath>)
    requires Paths(entries) !! removed
    ensures Without(entries, removed) == entries
  {
    if entries != [] {
      var rest := entries[..|entries| - 1];
      assert Paths(rest) <= Paths(entries);
      assert entries[|entries| - 1] in entries;
      WithoutNone(rest, removed);
    }
  }

  lemma {:induction false} WithoutShrinks(entries: seq<Entry>, removed: set<EntryPath>)
    ensures |Without(entries, removed)| <= |entries| && Sum(Without(entries, removed)) <= Sum(entries)
  {
    if entries != [] {
      var rest := entries[..|entries| - 1];
      WithoutShrinks(rest, removed);
      SumAppend(Without(rest, removed), [entries[|entries| - 1]]);
      SumOne(entries[|entries| - 1]);
      assert Without(rest, removed) + [] == Without(rest, removed);
    }
  }

  lemma {:induction false} StuckIsWithout(entries: seq<Entry>, undeletable: set<EntryPath>, removed: set<EntryPath>)
    requires forall e | e in entries :: e.path in removed <==> e.path !in undeletable
    ensures Stuck(entries, undeletable) == Without(entries, removed)
  {
    if entries != [] {
      assert forall e | e in entries[..|entries| - 1] :: e in entries;
      assert entries[|entries| - 1] in entries;
      StuckIsWithout(entries[..|entries| - 1], undeletable, removed);
    }
  }

  lemma StuckIsPrefixWithout(prefix: seq<Entry>, undeletable: set<EntryPath>)
    ensures Stuck(prefix, undeletable) == Without(prefix, Paths(prefix) - undeletable)
  {
    StuckIsWithout(prefix, undeletable, Paths(prefix) - undeletable);
  }

  lemma SplitPathsDisjoint(entries: seq<Entry>, n: nat)
    requires Distinct(multiset(entries)) && n <= |entries|
    ensures Paths(entries[..n]) !! Paths(entries[n..])
  {
    assert entries == entries[..n] + entries[n..];
    assert multiset(entries) == multiset(entries[..n]) + multiset(entries[n..]);
    forall e, f | e in entries[..n] && f in entries[n..]
      ensures e.path != f.path
    {
      assert e in multiset(entries[..n]) && f in multiset(entries[n..]);
      assert multiset(entries)[e] == multiset(entries[..n])[e] + multiset(entries[n..])[e];
    }
  }

  // ------------------------------------------------------------------ one prune

  // What is left once the deletable entries among the `cut` oldest are gone.
  function Left(sorted: seq<Entry>, undeletable: set<EntryPath>, cut: nat): seq<Entry>
    requires cut <= |sorted|
  {
    Stuck(sorted[..cut], undeletable) + sorted[cut..]
  }

  // The shortest oldest-first prefix whose removal brings the rest under both targets.
  ghost predicate ShortestCut(
    sorted: seq<Entry>, undeletable: set<EntryPath>, targetEntries: nat, targetBytes: nat, cut: nat)
  {
    && cut <= |sorted|
    && (forall m | 0 <= m < cut :: !Within(Left(sorted, undeletable, m), targetEntries, targetBytes))
    && (cut < |sorted| ==> Within(Left(sorted, undeletable, cut), targetEntries, targetBytes))
  }

  function Removed(sorted: seq<Entry>, undeletable: set<EntryPath>, cut: nat): set<EntryPath>
    requires cut <= |sorted|
  {
    Paths(sorted[..cut]) - undeletable
  }

  // What is left of a listing after a prune: all of it while both caps hold, else what the shortest
  // oldest-first cut that meets both targets leaves.
  ghost predicate PrunesTo(listed: seq<Entry>, now: seq<Entry>, undeletable: set<EntryPath>, caps: Caps) {
    if Within(listed, caps.maxEntries, caps.maxBytes) then multiset(now) == multiset(listed)
    else
      exists cut ::
        && ShortestCut(SortByTime(listed), undeletable, caps.targetEntries, caps.targetBytes, cut)
        && multiset(now) == multiset(Left(SortByTime(listed), undeletable, cut))
  }

  // The same over several directories, listed in some order.
  ghost predicate PrunesAllTo(was: seq<Entry>, now: seq<Entry>, undeletable: set<EntryPath>, caps: Caps) {
    exists listed :: multiset(listed) == multiset(was) && PrunesTo(listed, now, undeletable, caps)
  }

  lemma PrunedPermutes(
    listed: seq<Entry>, kept: seq<Entry>, now: seq<Entry>, undeletable: set<EntryPath>, caps: Caps)
    requires PrunesTo(listed, kept, undeletable, caps) && multiset(now) == multiset(kept)
    ensures PrunesTo(listed, now, undeletable, caps)
  {
  }

  lemma SuffixUntouched(sorted: seq<Entry>, undeletable: set<EntryPath>, cut: nat)
    requires Distinct(multiset(sorted)) && cut <= |sorted|
    ensures Without(sorted[cut..], Removed(sorted, undeletable, cut)) == sorted[cut..]
  {
    SplitPathsDisjoint(sorted, cut);
    WithoutNone(sorted[cut..], Removed(sorted, undeletable, cut));
  }

  lemma WithoutPrefix(prefix: seq<Entry>, suffix: seq<Entry>, undeletable: set<EntryPath>)
    requires Without(suffix, Paths(prefix) - undeletable) == suffix
    ensures Without(prefix + suffix, Paths(prefix) - undeletable) == Stuck(prefix, undeletable) + suffix
  {
    StuckIsPrefixWithout(prefix, undeletable);
    WithoutAppend(prefix, suffix, Paths(prefix) - undeletable);
  }

  lemma LeftIsWithout(sorted: seq<Entry>, undeletable: set<EntryPath>, cut: nat)
    requires cut <= |sorted|
    requires Without(sorted[cut..], Removed(sorted, undeletable, cut)) == sorted[cut..]
    ensures Left(sorted, undeletable, cut) == Without(sorted, Removed(sorted, undeletable, cut))
  {
    WithoutPrefix(sorted[..cut], sorted[cut..], undeletable);
    assert sorted[..cut] + sorted[cut..] == sorted;
  }

  // What a prune leaves is exactly the listing without the removed files, in listing order.
  lemma LeftIsOnDisk(sorted: seq<Entry>, undeletable: set<EntryPath>, cut: nat)
    requires Distinct(multiset(sorted)) && cut <= |sorted|
    ensures Left(sorted, undeletable, cut) == Without(sorted, Removed(sorted, undeletable, cut))
  {
    SuffixUntouched(sorted, undeletable, cut);
    LeftIsWithout(sorted, undeletable, cut);
  }

  lemma LeftNext(sorted: seq<Entry>, undeletable: set<EntryPath>, cut: nat)
    requires cut < |sorted|
    ensures sorted[cut].path in undeletable ==> Left(sorted, undeletable, cut + 1) == Left(sorted, undeletable, cut)
    ensures sorted[cut].path !in undeletable ==>
              && |Left(sorted, undeletable, cut + 1)| == |Left(sorted, undeletable, cut)| - 1
              && Sum(Left(sorted, undeletable, cut + 1)) == Sum(Left(sorted, undeletable, cut)) - sorted[cut].size
  {
    var e := sorted[cut];
    var stuck := Stuck(sorted[..cut], undeletable);
    assert sorted[..cut + 1][..cut] == sorted[..cut];
    var left := Left(sorted, undeletable, cut);
    if e.path in undeletable {
      assert Stuck(sorted[..cut + 1], undeletable) + sorted[cut + 1..] == stuck + sorted[cut..];
    } else {
      assert left[..|stuck|] == stuck && left[|stuck| + 1..] == sorted[cut + 1..];
      assert Stuck(sorted[..cut + 1], undeletable) == stuck;
      SumWithout(left, |stuck|);
    }
  }

  // A prune over a cap ends under both targets unless nothing but undeletable entries is left.
  lemma PruneReachesTargets(
    sorted: seq<Entry>, undeletable: set<EntryPath>, targetEntries: nat, targetBytes: nat, cut: nat)
    requires ShortestCut(sorted, undeletable, targetEntries, targetBytes, cut)
    ensures var left := Left(sorted, undeletable, cut);
            Within(left, targetEntries, targetBytes) || (forall e | e in left :: e.path in undeletable)
  {
    if cut == |sorted| {
      StuckOnly(sorted[..cut], undeletable);
    }
  }

  lemma {:induction false} StuckOnly(entries: seq<Entry>, undeletable: set<EntryPath>)
    ensures forall e | e in Stuck(entries, undeletable) :: e.path in undeletable && e in entries
  {
    if entries != [] {
      StuckOnly(entries[..|entries| - 1], undeletable);
    }
  }

  // ------------------------------------------------------------------ directories

  datatype Directory = Directory(name: nat, entries: seq<Entry>)

  function All(dirs: seq<Directory>): seq<Entry> {
    if dirs == [] then [] else All(dirs[..|dirs| - 1]) + dirs[|dirs| - 1].entries
  }

  function DropFiles(dirs: seq<Directory>, removed: set<EntryPath>): seq<Directory> {
    seq(|dirs|, i requires 0 <= i < |dirs| => Directory(dirs[i].name, Without(dirs[i].entries, removed)))
  }

  lemma {:induction false} AllWithout(dirs: seq<Directory>, removed: set<EntryPath>)
    ensures All(DropFiles(dirs, removed)) == Without(All(dirs), removed)
  {
    if dirs != [] {
      var rest := dirs[..|dirs| - 1];
      AllWithout(rest, removed);
      assert DropFiles(dirs, removed)[..|dirs| - 1] == DropFiles(rest, removed);
      WithoutAppend(All(rest), dirs[|dirs| - 1].entries, removed);
    }
  }

  lemma {:induction false} WithoutTwice(entries: seq<Entry>, first: set<EntryPath>, second: set<EntryPath>)
    ensures Without(Without(entries, first), second) == Without(entries, first + second)
  {
    if entries != [] {
      var (rest, last) := (entries[..|entries| - 1], entries[|entries| - 1]);
      WithoutTwice(rest, first, second);
      var without := Without(rest, first);
      assert without + [] == without && (without + [last])[..|without|] == without;
    }
  }

  lemma DropTwice(dirs: seq<Directory>, first: set<EntryPath>, second: set<EntryPath>)
    ensures DropFiles(DropFiles(dirs, first), second) == DropFiles(dirs, first + second)
  {
    forall i | 0 <= i < |dirs| {
      WithoutTwice(dirs[i].entries, first, second);
    }
  }

  lemma {:induction false} WithoutEmpty(entries: seq<Entry>)
    ensures Without(entries, {}) == entries
  {
    WithoutNone(entries, {});
  }

  lemma DropNone(dirs: seq<Directory>)
    ensures DropFiles(dirs, {}) == dirs
  {
    forall i | 0 <= i < |dirs| {
      WithoutEmpty(dirs[i].entries);
    }
  }

  // The owned directories under one cache root: each entry lies in its own directory and no file is
  // listed twice.
  ghost predicate WellFormed(dirs: seq<Directory>) {
    && (forall i, j | 0 <= i < j < |dirs| :: dirs[i].name != dirs[j].name)
    && (forall d, e | d in dirs && e in d.entries :: e.path.dir == d.name)
    && (forall d | d in dirs :: Distinct(multiset(d.entries)))
  }

  lemma {:induction false} EntryHasDirectory(dirs: seq<Directory>, e: Entry)
    requires e in All(dirs)
    ensures exists d :: d in dirs && e in d.entries
  {
    var rest := dirs[..|dirs| - 1];
    if e in All(rest) {
      EntryHasDirectory(rest, e);
      var d :| d in rest && e in d.entries;
      assert d in dirs;
    } else {
      assert dirs[|dirs| - 1] in dirs;
    }
  }

  lemma {:induction false} AllDistinct(dirs: seq<Directory>)
    requires WellFormed(dirs)
    ensures Distinct(multiset(All(dirs)))
  {
    if dirs != [] {
      var (rest, last) := (dirs[..|dirs| - 1], dirs[|dirs| - 1]);
      assert dirs == rest + [last];
      AllDistinct(rest);
      forall e | e in All(rest)
        ensures e.path.dir != last.name
      {
        EntryHasDirectory(rest, e);
        var d :| d in rest && e in d.entries;
        var i :| 0 <= i < |rest| && rest[i] == d;
        assert dirs[i].name != dirs[|dirs| - 1].name;
      }
      JoinDistinct(All(rest), last);
    }
  }

  lemma JoinDistinct(entries: seq<Entry>, dir: Directory)
    requires Distinct(multiset(entries)) && Distinct(multiset(dir.entries))
    requires forall e | e in entries :: e.path.dir != dir.name
    requires forall e | e in dir.entries :: e.path.dir == dir.name
    ensures Distinct(multiset(entries + dir.entries))
  {
    var (a, b) := (multiset(entries), multiset(dir.entries));
    assert multiset(entries + dir.entries) == a + b;
    forall e: Entry, f: Entry | e in a + b && f in a + b && e.path == f.path
      ensures e == f && (a + b)[e] == 1
    {
      assert (e in entries <==> e in a) && (f in entries <==> f in a);
      assert (e in dir.entries <==> e in b) && (f in dir.entries <==> f in b);
    }
  }

  function EntriesOf(dirs: seq<Directory>, name: nat): seq<Entry> {
    if dirs == [] then []
    else if dirs[|dirs| - 1].name == name then dirs[|dirs| - 1].entries
    else EntriesOf(dirs[..|dirs| - 1], name)
  }

  // The two levels of caps fit when two full directories stay within the total. The global pass is
  // skipped at two directories or fewer on the strength of this.
  ghost predicate CapsFit(perDir: Caps, total: Caps) {
    && perDir.Valid() && total.Valid()
    && 2 * perDir.maxEntries <= total.maxEntries
    && 2 * perDir.maxBytes <= total.maxBytes
  }

  const DIR_CAPS := Caps(50_000, 0x8000_0000, 40_000, 1_717_986_918)
  const TOTAL_CAPS := Caps(100_000, 0x1_0000_0000, 80_000, 3_435_973_836)

  lemma SourceCapsFit()
    ensures CapsFit(DIR_CAPS, TOTAL_CAPS)
  {
  }

  // The directories left once those without an entry are swept. The current one stays, and so does one
  // that cannot be removed.
  function Swept(dirs: seq<Directory>, current: nat, unremovable: set<nat>): seq<Directory> {
    if dirs == [] then []
    else
      var last := dirs[|dirs| - 1];
      var stays := last.name == current || last.entries != [] || last.name in unremovable;
      Swept(dirs[..|dirs| - 1], current, unremovable) + if stays then [last] else []
  }

  lemma {:induction false} SweepKeepsEntries(dirs: seq<Directory>, current: nat, unremovable: set<nat>)
    ensures All(Swept(dirs, current, unremovable)) == All(dirs)
    ensures forall d :: d in Swept(dirs, current, unremovable) <==>
              d in dirs && (d.name == current || d.entries != [] || d.name in unremovable)
    ensures |Swept(dirs, current, unremovable)| <= |dirs|
  {
    if dirs != [] {
      var rest := dirs[..|dirs| - 1];
      var last := dirs[|dirs| - 1];
      SweepKeepsEntries(rest, current, unremovable);
      assert dirs == rest + [last];
      var swept := Swept(rest, current, unremovable);
      assert swept + [] == swept && (swept + [last])[..|swept|] == swept;
      assert All(rest) + [] == All(rest);
    }
  }

  lemma {:induction false} SweepKeepsNames(dirs: seq<Directory>, current: nat, unremovable: set<nat>, i: nat, j: nat)
    requires forall i, j | 0 <= i < j < |dirs| :: dirs[i].name != dirs[j].name
    requires i < j < |Swept(dirs, current, unremovable)|
    ensures Swept(dirs, current, unremovable)[i].name != Swept(dirs, current, unremovable)[j].name
  {
    var rest := dirs[..|dirs| - 1];
    SweepKeepsEntries(rest, current, unremovable);
    var swept := Swept(rest, current, unremovable);
    if j < |swept| {
      SweepKeepsNames(rest, current, unremovable, i, j);
    } else {
      assert swept[i] in rest;
    }
  }

  lemma SweepKeepsWellFormed(dirs: seq<Directory>, current: nat, unremovable: set<nat>)
    requires WellFormed(dirs)
    ensures WellFormed(Swept(dirs, current, unremovable))
  {
    SweepKeepsEntries(dirs, current, unremovable);
    var swept := Swept(dirs, current, unremovable);
    forall i, j | 0 <= i < j < |swept|
      ensures swept[i].name != swept[j].name
    {
      SweepKeepsNames(dirs, current, unremovable, i, j);
    }
  }

  lemma DropKeepsWellFormed(dirs: seq<Directory>, removed: set<EntryPath>)
    requires WellFormed(dirs)
    ensures WellFormed(DropFiles(dirs, removed))
  {
    var dropped := DropFiles(dirs, removed);
    forall i | 0 <= i < |dropped|
      ensures forall e | e in dropped[i].entries :: e.path.dir == dropped[i].name
      ensures Distinct(multiset(dropped[i].entries))
    {
      assert dirs[i] in dirs;
      WithoutStaysDistinct(dirs[i].entries, removed);
      forall e | e in dropped[i].entries
        ensures e in dirs[i].entries
      {
        assert e in multiset(Without(dirs[i].entries, removed));
        WithoutCount(dirs[i].entries, removed, e);
      }
    }
  }

  // Every directory keeps to its caps but perhaps those of the given names.
  ghost predicate Tidy(dirs: seq<Directory>, caps: Caps, except: set<nat>) {
    forall d | d in dirs && d.name !in except :: Within(d.entries, caps.maxEntries, caps.maxBytes)
  }

  lemma DropKeepsTidy(dirs: seq<Directory>, removed: set<EntryPath>, caps: Caps, except: set<nat>)
    requires Tidy(dirs, caps, except)
    ensures Tidy(DropFiles(dirs, removed), caps, except)
  {
    forall i | 0 <= i < |dirs| && dirs[i].name !in except
      ensures Within(DropFiles(dirs, removed)[i].entries, caps.maxEntries, caps.maxBytes)
    {
      assert dirs[i] in dirs;
      WithoutShrinks(dirs[i].entries, removed);
    }
  }

  // A global pass takes no directory over its caps.
  lemma PassKeepsTidy(
    dirs: seq<Directory>, removed: set<EntryPath>, current: nat, unremovable: set<nat>, caps: Caps, except: set<nat>)
    requires Tidy(dirs, caps, except)
    ensures Tidy(Swept(DropFiles(dirs, removed), current, unremovable), caps, except)
  {
    DropKeepsTidy(dirs, removed, caps, except);
    SweepKeepsEntries(DropFiles(dirs, removed), current, unremovable);
  }

  lemma PassShrinks(dirs: seq<Directory>, removed: set<EntryPath>, current: nat, unremovable: set<nat>)
    ensures Sum(All(Swept(DropFiles(dirs, removed), current, unremovable))) <= Sum(All(dirs))
    ensures |Swept(DropFiles(dirs, removed), current, unremovable)| <= |dirs|
  {
    SweepKeepsEntries(DropFiles(dirs, removed), current, unremovable);
    AllWithout(dirs, removed);
    WithoutShrinks(All(dirs), removed);
  }

  lemma {:induction false} SweepKeepsListing(dirs: seq<Directory>, current: nat, unremovable: set<nat>, name: nat)
    requires forall i, j | 0 <= i < j < |dirs| :: dirs[i].name != dirs[j].name
    ensures EntriesOf(Swept(dirs, current, unremovable), name) == EntriesOf(dirs, name)
  {
    if dirs != [] {
      var rest := dirs[..|dirs| - 1];
      SweepKeepsListing(rest, current, unremovable, name);
      var swept := Swept(rest, current, unremovable);
      assert swept + [] == swept && (swept + [dirs[|dirs| - 1]])[..|swept|] == swept;
      if dirs[|dirs| - 1].name == name {
        NotListed(rest, name);
      }
    }
  }

  lemma {:induction false} NotListed(dirs: seq<Directory>, name: nat)
    requires forall i | 0 <= i < |dirs| :: dirs[i].name != name
    ensures EntriesOf(dirs, name) == []
  {
    if dirs != [] {
      NotListed(dirs[..|dirs| - 1], name);
    }
  }

  lemma TwoDirectoriesFit(dirs: seq<Directory>, perDir: Caps, total: Caps)
    requires CapsFit(perDir, total) && |dirs| <= 2
    requires forall d | d in dirs :: Within(d.entries, perDir.maxEntries, perDir.maxBytes)
    ensures Within(All(dirs), total.maxEntries, total.maxBytes)
  {
    if |dirs| == 1 {
      assert dirs[..0] == [] && All(dirs) == dirs[0].entries;
    } else if |dirs| == 2 {
      assert dirs[..1][..0] == [];
      assert All(dirs[..1]) == dirs[0].entries;
      SumAppend(dirs[0].entries, dirs[1].entries);
      assert dirs[0] in dirs && dirs[1] in dirs;
    }
  }

  lemma {:induction false} EntriesOfAt(dirs: seq<Directory>, i: nat)
    requires forall i, j | 0 <= i < j < |dirs| :: dirs[i].name != dirs[j].name
    requires i < |dirs|
    ensures EntriesOf(dirs, dirs[i].name) == dirs[i].entries
    decreases |dirs|
  {
    if i < |dirs| - 1 {
      EntriesOfAt(dirs[..|dirs| - 1], i);
    }
  }

  lemma {:induction false} EntriesOfIsListed(dirs: seq<Directory>, name: nat)
    ensures EntriesOf(dirs, name) == [] || Directory(name, EntriesOf(dirs, name)) in dirs
    ensures Sum(EntriesOf(dirs, name)) <= Sum(All(dirs))
  {
    if dirs != [] {
      EntriesOfIsListed(dirs[..|dirs| - 1], name);
      SumAppend(All(dirs[..|dirs| - 1]), dirs[|dirs| - 1].entries);
    }
  }

  lemma EntriesOfOne(dirs: seq<Directory>, name: nat)
    requires WellFormed(dirs)
    ensures Distinct(multiset(EntriesOf(dirs, name)))
    ensures forall e | e in EntriesOf(dirs, name) :: e.path.dir == name
    ensures Sum(EntriesOf(dirs, name)) <= Sum(All(dirs))
  {
    EntriesOfIsListed(dirs, name);
  }

  lemma {:induction false} EntriesOfDropped(dirs: seq<Directory>, name: nat, removed: set<EntryPath>)
    ensures EntriesOf(DropFiles(dirs, removed), name) == Without(EntriesOf(dirs, name), removed)
  {
    if dirs != [] {
      EntriesOfDropped(dirs[..|dirs| - 1], name, removed);
      assert DropFiles(dirs, removed)[..|dirs| - 1] == DropFiles(dirs[..|dirs| - 1], removed);
    }
  }

  // Removing files of one directory leaves the others alone.
  lemma DropInOneDirectory(dirs: seq<Directory>, name: nat, removed: set<EntryPath>)
    requires WellFormed(dirs) && removed <= Paths(EntriesOf(dirs, name))
    ensures EntriesOf(DropFiles(dirs, removed), name) == Without(EntriesOf(dirs, name), removed)
    ensures forall d | d in DropFiles(dirs, removed) && d.name != name :: d in dirs
  {
    EntriesOfDropped(dirs, name, removed);
    EntriesOfOne(dirs, name);
    forall i | 0 <= i < |dirs| && dirs[i].name != name
      ensures DropFiles(dirs, removed)[i] == dirs[i]
    {
      assert dirs[i] in dirs;
      WithoutNone(dirs[i].entries, removed);
    }
  }

  lemma OccupiedHasEntries(dirs: seq<Directory>, kept: seq<Entry>, i: nat)
    requires WellFormed(dirs) && i < |dirs| && forall e | e in kept :: e in All(dirs)
    requires exists e :: e in kept && e.path.dir == dirs[i].name
    ensures dirs[i].entries != []
  {
    var e :| e in kept && e.path.dir == dirs[i].name;
    EntryHasDirectory(dirs, e);
    var d :| d in dirs && e in d.entries;
    var j :| 0 <= j < |dirs| && dirs[j] == d;
    assert dirs[j].name == dirs[i].name;
  }

  // The directories after workspace `name` was written, its directory created if need be.
  function WithEntries(dirs: seq<Directory>, name: nat, entries: seq<Entry>): seq<Directory> {
    if dirs == [] then [Directory(name, entries)]
    else
      var (rest, last) := (dirs[..|dirs| - 1], dirs[|dirs| - 1]);
      if last.name == name then rest + [Directory(name, entries)]
      else WithEntries(rest, name, entries) + [last]
  }

  lemma {:induction false} WithEntriesMembers(dirs: seq<Directory>, name: nat, entries: seq<Entry>)
    requires forall i, j | 0 <= i < j < |dirs| :: dirs[i].name != dirs[j].name
    ensures var r := WithEntries(dirs, name, entries);
            && (forall d | d in r :: d == Directory(name, entries) || (d in dirs && d.name != name))
            && (forall i, j | 0 <= i < j < |r| :: r[i].name != r[j].name)
  {
    if dirs != [] {
      var (rest, last) := (dirs[..|dirs| - 1], dirs[|dirs| - 1]);
      WithEntriesMembers(rest, name, entries);
      assert forall d | d in rest :: d in dirs && d.name != last.name;
    }
  }

  lemma WithEntriesWellFormed(dirs: seq<Directory>, name: nat, entries: seq<Entry>)
    requires WellFormed(dirs) && Distinct(multiset(entries)) && forall e | e in entries :: e.path.dir == name
    ensures WellFormed(WithEntries(dirs, name, entries))
    ensures forall d | d in WithEntries(dirs, name, entries) && d.name != name :: d in dirs
  {
    WithEntriesMembers(dirs, name, entries);
  }

  lemma {:induction false} EntriesOfWith(dirs: seq<Directory>, name: nat, entries: seq<Entry>)
    ensures EntriesOf(WithEntries(dirs, name, entries), name) == entries
  {
    if dirs != [] {
      var (rest, last) := (dirs[..|dirs| - 1], dirs[|dirs| - 1]);
      EntriesOfWith(rest, name, entries);
      var r := WithEntries(dirs, name, entries);
      if last.name != name {
        assert r[..|r| - 1] == WithEntries(rest, name, entries);
      }
    }
  }

  lemma {:induction false} WithEntriesSum(dirs: seq<Directory>, name: nat, entries: seq<Entry>)
    ensures Sum(All(WithEntries(dirs, name, entries))) <= Sum(All(dirs)) + Sum(entries)
  {
    var r := WithEntries(dirs, name, entries);
    if dirs == [] {
      assert r[..0] == [] && [] + entries == entries;
    } else {
      var (rest, last) := (dirs[..|dirs| - 1], dirs[|dirs| - 1]);
      WithEntriesSum(rest, name, entries);
      SumAppend(All(rest), last.entries);
      if last.name == name {
        assert r[..|r| - 1] == rest;
        SumAppend(All(rest), entries);
      } else {
        assert r[..|r| - 1] == WithEntries(rest, name, entries);
        SumAppend(All(WithEntries(rest, name, entries)), last.entries);
      }
    }
  }

  // ------------------------------------------------------------------ the cache root

  class ParseCache {
    const perDir: Caps
    const total: Caps
    const undeletable: set<EntryPath>   // entries whose files cannot be removed
    const unremovable: set<nat>         // directories that cannot be removed
    var dirs: seq<Directory>

    // The directories that a validation has left over their caps since they were last pruned.
    ghost var refilled: set<nat>

    ghost predicate Valid()
      reads this
    {
      && WellFormed(dirs) && CapsFit(perDir, total)
      && (undeletable == {} ==> Tidy(dirs, perDir, refilled))
    }

    constructor (perDir: Caps, total: Caps, undeletable: set<EntryPath>, unremovable: set<nat>)
      requires CapsFit(perDir, total)
      ensures Valid() && dirs == [] && refilled == {}
      ensures this.perDir == perDir && this.total == total
      ensures this.undeletable == undeletable && this.unremovable == unremovable
    {
      this.perDir := perDir;
      this.total := total;
      this.undeletable := undeletable;
      this.unremovable := unremovable;
      dirs := [];
      refilled := {};
    }

    method RemoveFile(path: EntryPath) returns (ok: bool)
      modifies this`dirs
      ensures ok <==> path !in undeletable
      ensures dirs == DropFiles(old(dirs), if ok then {path} else {})
    {
      ok := path !in undeletable;
      if ok {
        dirs := DropFiles(dirs, {path});
      } else {
        DropNone(dirs);
      }
    }

    // Evict the oldest entries until both targets are met; nothing goes while both caps hold.
    method PruneEntries(entries: seq<Entry>, caps: Caps)
      returns (kept: seq<Entry>, ghost cut: nat, ghost removed: set<EntryPath>)
      requires caps.Valid() && Sum(entries) <= U64_MAX && Distinct(multiset(entries))
      modifies this`dirs
      ensures Within(entries, caps.maxEntries, caps.maxBytes) ==> kept == entries && removed == {}
      ensures !Within(entries, caps.maxEntries, caps.maxBytes) ==>
                var sorted := SortByTime(entries);
                && ShortestCut(sorted, undeletable, caps.targetEntries, caps.targetBytes, cut)
                && kept == Left(sorted, undeletable, cut)
                && removed == Removed(sorted, undeletable, cut)
      ensures dirs == DropFiles(old(dirs), removed)
      ensures multiset(kept) == multiset(Without(entries, removed))
      ensures removed <= Paths(entries)
      ensures undeletable == {} ==> Within(kept, caps.maxEntries, caps.maxBytes)
      ensures PrunesTo(entries, kept, undeletable, caps)
    {
      NoSaturation(entries);
      cut, removed := 0, {};
      var totalBytes := SaturatingSum(entries);
      if |entries| <= caps.maxEntries && totalBytes <= caps.maxBytes {
        DropNone(dirs);
        WithoutEmpty(entries);
        return entries, cut, removed;
      }
      var sorted := SortByTime(entries);
      SumOfPermutation(sorted, entries);
      kept, cut := Retain(sorted, caps.targetEntries, caps.targetBytes);
      removed := Removed(sorted, undeletable, cut);
      LeftIsOnDisk(sorted, undeletable, cut);
      WithoutPermutes(sorted, entries, removed);
      PathsOfPermutation(sorted, entries, cut);
      PruneReachesTargets(sorted, undeletable, caps.targetEntries, caps.targetBytes, cut);
      assert undeletable == {} && kept != [] ==> kept[0] in kept;
    }

    method Retain(sorted: seq<Entry>, targetEntries: nat, targetBytes: nat)
      returns (kept: seq<Entry>, ghost cut: nat)
      requires Sum(sorted) <= U64_MAX
      modifies this`dirs
      ensures ShortestCut(sorted, undeletable, targetEntries, targetBytes, cut)
      ensures kept == Left(sorted, undeletable, cut)
      ensures dirs == DropFiles(old(dirs), Removed(sorted, undeletable, cut))
    {
      var curCount: nat, curBytes: nat := |sorted|, SaturatingSum(sorted);
      kept, cut := [], 0;
      DropNone(dirs);
      RetainStarts(sorted, undeletable, targetEntries, targetBytes);
      for i := 0 to |sorted|
        invariant Retaining(sorted, undeletable, targetEntries, targetBytes, cut, i, kept, curCount, curBytes)
        invariant dirs == DropFiles(old(dirs), Removed(sorted, undeletable, cut))
      {
        var e := sorted[i];
        if curCount <= targetEntries && curBytes <= targetBytes {
          RetainKeeps(sorted, undeletable, targetEntries, targetBytes, cut, i, kept, curCount, curBytes);
          kept := kept + [e];
          continue;
        }
        RetainRemoves(sorted, undeletable, targetEntries, targetBytes, cut, i, kept, curCount, curBytes);
        kept, curCount, curBytes := EvictOne(sorted, i, kept, curCount, curBytes, old(dirs));
        cut := i + 1;
      }
      RetainDone(sorted, undeletable, targetEntries, targetBytes, cut, kept, curCount, curBytes);
    }

    // Remove the file of entry `i`; an entry whose file cannot be removed is kept.
    method EvictOne(
      sorted: seq<Entry>, i: nat, kept: seq<Entry>, curCount: nat, curBytes: nat, ghost before: seq<Directory>)
      returns (kept': seq<Entry>, curCount': nat, curBytes': nat)
      requires i < |sorted| && curCount > 0
      requires dirs == DropFiles(before, Removed(sorted, undeletable, i))
      modifies this`dirs
      ensures dirs == DropFiles(before, Removed(sorted, undeletable, i + 1))
      ensures if sorted[i].path in undeletable
              then kept' == kept + [sorted[i]] && curCount' == curCount && curBytes' == curBytes
              else kept' == kept && curCount' == curCount - 1 && curBytes' == SaturatingSub(curBytes, sorted[i].size)
    {
      var ok := RemoveFile(sorted[i].path);
      DropNext(before, sorted, undeletable, i);
      if ok {
        return kept, curCount - 1, SaturatingSub(curBytes, sorted[i].size);
      }
      return kept + [sorted[i]], curCount, curBytes;
    }

    // prune_cache_dir: the caps of one directory. Returns what is left of it on disk.
    method PruneCacheDir(name: nat) returns (kept: seq<Entry>)
      requires WellFormed(dirs) && perDir.Valid() && Sum(All(dirs)) <= U64_MAX
      modifies this`dirs
      ensures WellFormed(dirs) && |dirs| == |old(dirs)| && Sum(All(dirs)) <= Sum(All(old(dirs)))
      ensures multiset(kept) == multiset(EntriesOf(dirs, name))
      ensures PrunesTo(EntriesOf(old(dirs), name), EntriesOf(dirs, name), undeletable, perDir)
      ensures Within(EntriesOf(old(dirs), name), perDir.maxEntries, perDir.maxBytes) ==> dirs == old(dirs)
      ensures undeletable == {} ==> Within(EntriesOf(dirs, name), perDir.maxEntries, perDir.maxBytes)
      ensures forall d | d in dirs && d.name != name :: d in old(dirs)
      ensures SameListings(old(dirs), dirs, name) && DirNames(dirs) <= DirNames(old(dirs))
    {
      var entries := EntriesOf(dirs, name);
      EntriesOfOne(dirs, name);
      ghost var cut, removed;
      kept, cut, removed := PruneEntries(entries, perDir);
      DropKeepsWellFormed(old(dirs), removed);
      AllWithout(old(dirs), removed);
      WithoutShrinks(All(old(dirs)), removed);
      DropInOneDirectory(old(dirs), name, removed);
      DropKeepsListings(old(dirs), name, removed);
      DropKeepsNames(old(dirs), removed);
      SumOfPermutation(kept, EntriesOf(dirs, name));
      PrunedPermutes(entries, kept, EntriesOf(dirs, name), undeletable, perDir);
      DropNone(old(dirs));
    }

    // prune_all_cache_dirs: the caps over all owned directories, then the sweep. `current` was just
    // pruned, so its remaining entries are handed over instead of being listed again.
    method PruneAllCacheDirs(current: nat, currentEntries: seq<Entry>) returns (ghost removed: set<EntryPath>)
      requires WellFormed(dirs) && CapsFit(perDir, total) && Sum(All(dirs)) <= U64_MAX
      requires multiset(currentEntries) == multiset(EntriesOf(dirs, current))
      modifies this`dirs
      ensures WellFormed(dirs)
      ensures dirs == Swept(DropFiles(old(dirs), removed), current, unremovable)
      ensures |old(dirs)| <= 2 || Within(All(old(dirs)), total.maxEntries, total.maxBytes) ==> removed == {}
      ensures |old(dirs)| > 2 ==> PrunesAllTo(All(old(dirs)), All(dirs), undeletable, total)
      ensures undeletable == {} && (|old(dirs)| > 2 || Tidy(old(dirs), perDir, {})) ==>
                Within(All(dirs), total.maxEntries, total.maxBytes)
    {
      var entries := [];
      removed := {};
      if |dirs| > 2 {
        entries := Gather(current, currentEntries);
        entries, removed := PruneAcrossDirs(entries);
      } else {
        DropNone(dirs);
        if Tidy(dirs, perDir, {}) {
          TwoDirectoriesFit(dirs, perDir, total);
        }
      }
      SweepKeepsWellFormed(dirs, current, unremovable);
      SweepKeepsEntries(dirs, current, unremovable);
      RemoveEmptyCacheDirs(current, entries);
    }

    // List every owned directory, except that the current one's entries are already at hand.
    method Gather(current: nat, currentEntries: seq<Entry>) returns (entries: seq<Entry>)
      requires WellFormed(dirs)
      requires multiset(currentEntries) == multiset(EntriesOf(dirs, current))
      ensures multiset(entries) == multiset(All(dirs))
    {
      entries := [];
      for i := 0 to |dirs|
        invariant multiset(entries) == multiset(All(dirs[..i]))
      {
        assert dirs[..i + 1][..i] == dirs[..i];
        if dirs[i].name == current {
          EntriesOfAt(dirs, i);
          entries := entries + currentEntries;
        } else {
          entries := entries + dirs[i].entries;
        }
      }
      assert dirs[..|dirs|] == dirs;
    }

    method PruneAcrossDirs(entries: seq<Entry>) returns (kept: seq<Entry>, ghost removed: set<EntryPath>)
      requires WellFormed(dirs) && total.Valid() && Sum(All(dirs)) <= U64_MAX
      requires multiset(entries) == multiset(All(dirs))
      modifies this`dirs
      ensures WellFormed(dirs) && (undeletable == {} ==> Within(All(dirs), total.maxEntries, total.maxBytes))
      ensures dirs == DropFiles(old(dirs), removed)
      ensures Within(All(old(dirs)), total.maxEntries, total.maxBytes) ==> removed == {}
      ensures PrunesTo(entries, All(dirs), undeletable, total)
      ensures forall e | e in kept :: e in All(dirs)
    {
      AllDistinct(dirs);
      SumOfPermutation(entries, All(dirs));
      ghost var cut;
      kept, cut, removed := PruneEntries(entries, total);
      DropKeepsWellFormed(old(dirs), removed);
      AllWithout(old(dirs), removed);
      WithoutPermutes(entries, All(old(dirs)), removed);
      SumOfPermutation(kept, All(dirs));
      PrunedPermutes(entries, kept, All(dirs), undeletable, total);
      assert forall e | e in kept :: e in multiset(All(dirs));
    }

    // Sweep the directories that hold no entry. A directory among those of `kept` is taken to be
    // occupied; any other is listed again before it goes.
    method RemoveEmptyCacheDirs(current: nat, kept: seq<Entry>)
      requires WellFormed(dirs) && forall e | e in kept :: e in All(dirs)
      modifies this`dirs
      ensures dirs == Swept(old(dirs), current, unremovable)
    {
      var occupied := set e | e in kept :: e.path.dir;
      var left := [];
      for i := 0 to |dirs|
        invariant dirs == old(dirs) && left == Swept(dirs[..i], current, unremovable)
      {
        var dir := dirs[i];
        assert dirs[..i + 1][..i] == dirs[..i];
        if dir.name in occupied {
          OccupiedHasEntries(dirs, kept, i);
        }
        if dir.name == current || dir.name in occupied || |dir.entries| != 0 || dir.name in unremovable {
          left := left + [dir];
        }
      }
      assert dirs[..|dirs|] == dirs;
      dirs := left;
    }

    // Enforce both levels of caps after a batch of writes to the workspace `name`. Its directory comes
    // within its caps. All of them together do where the global pass takes place or is rightly skipped.
    // With two directories or fewer no other directory changes.
    method Prune(name: nat) returns (ghost mid: seq<Directory>)
      requires WellFormed(dirs) && CapsFit(perDir, total) && Sum(All(dirs)) <= U64_MAX
      requires undeletable == {} ==> Tidy(dirs, perDir, refilled + {name})
      modifies this`dirs, this`refilled
      ensures Valid() && refilled == old(refilled) - {name}
      ensures Pruned(old(dirs), dirs, name)
      ensures DirPruned(old(dirs), mid, name, undeletable, perDir)
      ensures OthersPruned(mid, dirs, name, undeletable, unremovable, total)
      ensures undeletable == {} && (|dirs| > 2 || refilled == {}) ==>
                Within(All(dirs), total.maxEntries, total.maxBytes)
    {
      refilled := refilled - {name};
      var entries := PruneCacheDir(name);
      mid := dirs;
      if undeletable == {} {
        PrunedIsTidy(old(dirs), dirs, name, perDir, refilled);
      }
      ghost var removed := PruneOthers(name, entries);
    }

    // The global pass after the current directory's own prune or clearing.
    method PruneOthers(name: nat, entries: seq<Entry>) returns (ghost removed: set<EntryPath>)
      requires Valid() && Sum(All(dirs)) <= U64_MAX
      requires multiset(entries) == multiset(EntriesOf(dirs, name))
      modifies this`dirs
      ensures Valid() && Pruned(old(dirs), dirs, name)
      ensures dirs == Swept(DropFiles(old(dirs), removed), name, unremovable)
      ensures OthersPruned(old(dirs), dirs, name, undeletable, unremovable, total)
      ensures undeletable == {} && (|dirs| > 2 || refilled == {}) ==>
                Within(All(dirs), total.maxEntries, total.maxBytes)
    {
      removed := PruneAllCacheDirs(name, entries);
      DropNone(old(dirs));
      PassPrunes(old(dirs), removed, name, unremovable);
      if undeletable == {} {
        PassKeepsTidy(old(dirs), removed, name, unremovable, perDir, refilled);
      }
    }

    // One scan: the workspace's directory comes out of the writes with whatever entries, new and
    // overwritten ones alike, and the prune follows.
    method ScanBatch(name: nat, written: seq<Entry>) returns (ghost mid: seq<Directory>)
      requires Valid()
      requires Distinct(multiset(written)) && (forall e | e in written :: e.path.dir == name)
      requires Sum(All(dirs)) + Sum(written) <= U64_MAX
      modifies this`dirs, this`refilled
      ensures Valid() && refilled == old(refilled) - {name}
      ensures Changed(old(dirs), dirs, name, Sum(written))
      ensures DirPruned(WithEntries(old(dirs), name, written), mid, name, undeletable, perDir)
      ensures OthersPruned(mid, dirs, name, undeletable, unremovable, total)
      ensures undeletable == {} && (|dirs| > 2 || refilled == {}) ==>
                Within(All(dirs), total.maxEntries, total.maxBytes)
    {
      Write(name, written);
      ghost var filled := dirs;
      mid := Prune(name);
      WrittenThenPruned(old(dirs), filled, dirs, name, Sum(written));
    }

    // A batch of stores to one workspace, whatever follows it.
    method Write(name: nat, written: seq<Entry>)
      requires Valid()
      requires Distinct(multiset(written)) && (forall e | e in written :: e.path.dir == name)
      modifies this`dirs
      ensures dirs == WithEntries(old(dirs), name, written)
      ensures WellFormed(dirs) && EntriesOf(dirs, name) == written
      ensures Filled(old(dirs), dirs, name, Sum(written))
      ensures forall d | d in dirs :: d == Directory(name, written) || (d in old(dirs) && d.name != name)
    {
      WithEntriesWellFormed(dirs, name, written);
      WithEntriesMembers(dirs, name, written);
      WithEntriesSum(dirs, name, written);
      EntriesOfWith(dirs, name, written);
      forall n | n != name ensures EntriesOf(WithEntries(dirs, name, written), n) == EntriesOf(dirs, n) {
        EntriesOfOthers(dirs, name, written, n);
      }
      dirs := WithEntries(dirs, name, written);
      NamesBoundDirs(dirs, DirNames(old(dirs)) + {name});
    }

    // validate_selected parses the files again, and what misses then is stored with no prune to follow.
    // The directory is over its caps exactly when what validation left there is; no other one changes.
    method Validate(name: nat, written: seq<Entry>)
      requires Valid()
      requires Distinct(multiset(written)) && (forall e | e in written :: e.path.dir == name)
      modifies this`dirs, this`refilled
      ensures Valid() && EntriesOf(dirs, name) == written
      ensures refilled == if Within(written, perDir.maxEntries, perDir.maxBytes) then old(refilled) - {name}
                          else old(refilled) + {name}
      ensures Filled(old(dirs), dirs, name, Sum(written))
      ensures dirs == WithEntries(old(dirs), name, written)
    {
      Write(name, written);
      refilled :=
        if Within(written, perDir.maxEntries, perDir.maxBytes) then refilled - {name} else refilled + {name};
    }

    // validate_or_clear: a workspace whose signature does not match starts over with an empty
    // directory; either way its caps hold afterwards.
    method ValidateOrClear(name: nat, signatureMatches: bool)
      returns (hit: bool, ghost mid: seq<Directory>, ghost removed: set<EntryPath>)
      requires Valid() && Sum(All(dirs)) <= U64_MAX
      modifies this`dirs, this`refilled
      ensures Valid() && refilled == old(refilled) - {name}
      ensures hit == signatureMatches
      ensures hit ==> DirPruned(old(dirs), mid, name, undeletable, perDir)
      ensures !hit ==> mid == WithEntries(old(dirs), name, [])
      ensures !hit ==> dirs == Swept(DropFiles(mid, removed), name, unremovable)
      ensures OthersPruned(mid, dirs, name, undeletable, unremovable, total)
      ensures Changed(old(dirs), dirs, name, 0)
      ensures undeletable == {} && (|dirs| > 2 || refilled == {}) ==>
                Within(All(dirs), total.maxEntries, total.maxBytes)
    {
      if signatureMatches {
        mid := Prune(name);
        PrunedOnly(old(dirs), dirs, name);
        return true, mid, {};
      }
      removed := StartOver(name);
      return false, WithEntries(old(dirs), name, []), removed;
    }

    method StartOver(name: nat) returns (ghost removed: set<EntryPath>)
      requires Valid() && Sum(All(dirs)) <= U64_MAX
      modifies this`dirs, this`refilled
      ensures Valid() && refilled == old(refilled) - {name}
      ensures dirs == Swept(DropFiles(WithEntries(old(dirs), name, []), removed), name, unremovable)
      ensures OthersPruned(WithEntries(old(dirs), name, []), dirs, name, undeletable, unremovable, total)
      ensures Changed(old(dirs), dirs, name, 0)
      ensures undeletable == {} && (|dirs| > 2 || refilled == {}) ==>
                Within(All(dirs), total.maxEntries, total.maxBytes)
    {
      Write(name, []);
      refilled := refilled - {name};
      if undeletable == {} {
        ClearedIsTidy(old(dirs), dirs, name, perDir, refilled);
      }
      ghost var cleared := dirs;
      removed := PruneOthers(name, []);
      WrittenThenPruned(old(dirs), cleared, dirs, name, 0);
    }
  }

  // No directory but `name` lists other entries than before.
  ghost predicate SameListings(was: seq<Directory>, now: seq<Directory>, name: nat) {
    forall n | n != name :: EntriesOf(now, n) == EntriesOf(was, n)
  }

  // A write of `bytes` in all to one directory.
  ghost predicate Filled(was: seq<Directory>, now: seq<Directory>, name: nat, bytes: nat) {
    && Sum(All(now)) <= Sum(All(was)) + bytes
    && DirNames(now) <= DirNames(was) + {name} && |now| <= |DirNames(was) + {name}|
    && SameListings(was, now, name)
  }

  // A prune: nothing is added, and at two directories or fewer only the current one loses entries.
  ghost predicate Pruned(was: seq<Directory>, now: seq<Directory>, name: nat) {
    && Sum(All(now)) <= Sum(All(was))
    && DirNames(now) <= DirNames(was)
    && (|was| <= 2 ==> SameListings(was, now, name))
  }

  // The first level: one directory is cut back, or nothing at all happens.
  ghost predicate DirPruned(
    was: seq<Directory>, now: seq<Directory>, name: nat, undeletable: set<EntryPath>, perDir: Caps)
  {
    && PrunesTo(EntriesOf(was, name), EntriesOf(now, name), undeletable, perDir)
    && SameListings(was, now, name) && |now| == |was|
    && (Within(EntriesOf(was, name), perDir.maxEntries, perDir.maxBytes) ==> now == was)
  }

  // The second level: where it does not apply or finds its caps kept, only empty directories go.
  ghost predicate OthersPruned(
    was: seq<Directory>, now: seq<Directory>, name: nat, undeletable: set<EntryPath>, unremovable: set<nat>,
    total: Caps)
  {
    if |was| <= 2 || Within(All(was), total.maxEntries, total.maxBytes) then now == Swept(was, name, unremovable)
    else
      && PrunesAllTo(All(was), All(now), undeletable, total)
      && exists removed :: now == Swept(DropFiles(was, removed), name, unremovable)
  }

  // A write and a prune after it.
  ghost predicate Changed(was: seq<Directory>, now: seq<Directory>, name: nat, bytes: nat) {
    && Sum(All(now)) <= Sum(All(was)) + bytes
    && DirNames(now) <= DirNames(was) + {name}
    && (|DirNames(was) + {name}| <= 2 ==> SameListings(was, now, name))
  }

  lemma WrittenThenPruned(was: seq<Directory>, filled: seq<Directory>, now: seq<Directory>, name: nat, bytes: nat)
    requires Filled(was, filled, name, bytes) && Pruned(filled, now, name)
    ensures Changed(was, now, name, bytes)
  {
  }

  lemma PrunedOnly(was: seq<Directory>, now: seq<Directory>, name: nat)
    requires WellFormed(was) && Pruned(was, now, name)
    ensures Changed(was, now, name, 0)
  {
    NamesBoundDirs(was, DirNames(was) + {name});
  }

  lemma PassPrunes(dirs: seq<Directory>, removed: set<EntryPath>, current: nat, unremovable: set<nat>)
    requires WellFormed(dirs) && (|dirs| <= 2 ==> removed == {})
    ensures Pruned(dirs, Swept(DropFiles(dirs, removed), current, unremovable), current)
    ensures |Swept(DropFiles(dirs, removed), current, unremovable)| <= |dirs|
  {
    PassShrinks(dirs, removed, current, unremovable);
    DropKeepsNames(dirs, removed);
    SweepKeepsEntries(DropFiles(dirs, removed), current, unremovable);
    if |dirs| <= 2 {
      DropNone(dirs);
      forall n { SweepKeepsListing(dirs, current, unremovable, n); }
    }
  }

  function DirNames(dirs: seq<Directory>): set<nat> { set d | d in dirs :: d.name }

  lemma {:induction false} NamesBoundDirs(dirs: seq<Directory>, names: set<nat>)
    requires forall i, j | 0 <= i < j < |dirs| :: dirs[i].name != dirs[j].name
    requires DirNames(dirs) <= names
    ensures |dirs| <= |names|
    decreases |dirs|
  {
    if dirs != [] {
      var (rest, last) := (dirs[..|dirs| - 1], dirs[|dirs| - 1]);
      assert last in dirs && last.name in names;
      forall d | d in rest ensures d in dirs && d.name != last.name {
      }
      NamesBoundDirs(rest, names - {last.name});
    }
  }

  lemma DropKeepsNames(dirs: seq<Directory>, removed: set<EntryPath>)
    ensures DirNames(DropFiles(dirs, removed)) <= DirNames(dirs)
  {
    forall d | d in DropFiles(dirs, removed) ensures d.name in DirNames(dirs) {
      var i :| 0 <= i < |dirs| && DropFiles(dirs, removed)[i] == d;
      assert dirs[i] in dirs;
    }
  }

  lemma DropKeepsListings(dirs: seq<Directory>, name: nat, removed: set<EntryPath>)
    requires WellFormed(dirs) && removed <= Paths(EntriesOf(dirs, name))
    ensures SameListings(dirs, DropFiles(dirs, removed), name)
  {
    EntriesOfOne(dirs, name);
    forall n | n != name
      ensures EntriesOf(DropFiles(dirs, removed), n) == EntriesOf(dirs, n)
    {
      EntriesOfDropped(dirs, n, removed);
      EntriesOfOne(dirs, n);
      WithoutNone(EntriesOf(dirs, n), removed);
    }
  }

  lemma ClearedIsTidy(before: seq<Directory>, dirs: seq<Directory>, name: nat, caps: Caps, except: set<nat>)
    requires Tidy(before, caps, except + {name})
    requires forall d | d in dirs :: d == Directory(name, []) || (d in before && d.name != name)
    ensures Tidy(dirs, caps, except)
  {
  }

  lemma PrunedIsTidy(before: seq<Directory>, dirs: seq<Directory>, name: nat, caps: Caps, except: set<nat>)
    requires Tidy(before, caps, except + {name}) && WellFormed(dirs)
    requires Within(EntriesOf(dirs, name), caps.maxEntries, caps.maxBytes)
    requires forall d | d in dirs && d.name != name :: d in before
    ensures Tidy(dirs, caps, except)
  {
    forall d | d in dirs && d.name == name
      ensures Within(d.entries, caps.maxEntries, caps.maxBytes)
    {
      var i :| 0 <= i < |dirs| && dirs[i] == d;
      EntriesOfAt(dirs, i);
    }
  }

  lemma {:induction false} EntriesOfOthers(dirs: seq<Directory>, name: nat, entries: seq<Entry>, other: nat)
    requires other != name
    ensures EntriesOf(WithEntries(dirs, name, entries), other) == EntriesOf(dirs, other)
  {
    var r := WithEntries(dirs, name, entries);
    if dirs == [] {
      assert r[..0] == [];
    } else {
      var (rest, last) := (dirs[..|dirs| - 1], dirs[|dirs| - 1]);
      EntriesOfOthers(rest, name, entries, other);
      assert r[..|r| - 1] == if last.name == name then rest else WithEntries(rest, name, entries);
    }
  }

  // ------------------------------------------------------------------ histories

  // What one process does to its cache: open a workspace, scan one and write its entries, or validate
  // one and store what misses.
  datatype Action =
    | Open(name: nat, signatureMatches: bool)
    | Scan(name: nat, written: seq<Entry>)
    | Validate(name: nat, written: seq<Entry>)

  function Written(a: Action): seq<Entry> { if a.Open? then [] else a.written }

  function Before(history: seq<Action>): seq<Action>
    requires history != []
  {
    history[..|history| - 1]
  }

  function Last(history: seq<Action>): Action
    requires history != []
  {
    history[|history| - 1]
  }

  // The workspaces whose last action was a validation that left more than their caps allow.
  ghost function Refilled(history: seq<Action>, perDir: Caps): set<nat> {
    if history == [] then {}
    else
      var a := Last(history);
      if a.Validate? && !Within(a.written, perDir.maxEntries, perDir.maxBytes)
      then Refilled(Before(history), perDir) + {a.name}
      else Refilled(Before(history), perDir) - {a.name}
  }

  // The last action was followed by a prune.
  predicate EndsPruned(history: seq<Action>) { history == [] || !Last(history).Validate? }

  function Workspaces(history: seq<Action>): set<nat> { set a | a in history :: a.name }

  function Min(a: nat, b: nat): nat { if a < b then a else b }

  // How many bytes the cache may hold after a history.
  ghost function Load(history: seq<Action>, perDir: Caps, total: Caps): nat {
    if history == [] then 0
    else
      var load := Load(Before(history), perDir, total) + Sum(Written(Last(history)));
      if EndsPruned(history) && Refilled(history, perDir) == {} then Min(load, total.maxBytes) else load
  }

  // The files of every batch are distinct, and the cache can be counted in 64 bits at every prune.
  ghost predicate Countable(history: seq<Action>, perDir: Caps, total: Caps) {
    history == [] ||
      var (before, a) := (Before(history), Last(history));
      && Countable(before, perDir, total)
      && Distinct(multiset(Written(a)))
      && (forall e | e in Written(a) :: e.path.dir == a.name)
      && Load(before, perDir, total) + Sum(Written(a)) <= U64_MAX
  }

  // The directories after an action and before any prune.
  function Unpruned(dirs: seq<Directory>, a: Action): seq<Directory> {
    match a
    case Open(name, signatureMatches) => if signatureMatches then dirs else WithEntries(dirs, name, [])
    case Scan(name, written) => WithEntries(dirs, name, written)
    case Validate(name, written) => WithEntries(dirs, name, written)
  }

  // The cache if no prune ever took an entry.
  function Held(history: seq<Action>, unremovable: set<nat>): seq<Directory> {
    if history == [] then []
    else
      var a := Last(history);
      var dirs := Unpruned(Held(Before(history), unremovable), a);
      if a.Validate? then dirs else Swept(dirs, a.name, unremovable)
  }

  // Every prune of the history finds its directory, and all of them together where it looks at more than
  // two, within their caps.
  ghost predicate Fits(history: seq<Action>, unremovable: set<nat>, perDir: Caps, total: Caps) {
    history == [] ||
      var (before, a) := (Before(history), Last(history));
      var dirs := Unpruned(Held(before, unremovable), a);
      && Fits(before, unremovable, perDir, total)
      && (!a.Validate? ==>
            && Within(EntriesOf(dirs, a.name), perDir.maxEntries, perDir.maxBytes)
            && (|dirs| <= 2 || Within(All(dirs), total.maxEntries, total.maxBytes)))
  }

  // What was stored for a workspace last.
  function Latest(history: seq<Action>, name: nat): seq<Entry> {
    if history == [] then []
    else
      var a := Last(history);
      if a.name != name then Latest(Before(history), name)
      else
        match a
        case Open(_, signatureMatches) => if signatureMatches then Latest(Before(history), name) else []
        case Scan(_, written) => written
        case Validate(_, written) => written
  }

  lemma UnprunedIsLatest(dirs: seq<Directory>, a: Action, name: nat)
    requires forall i, j | 0 <= i < j < |dirs| :: dirs[i].name != dirs[j].name
    ensures var r := Unpruned(dirs, a); forall i, j | 0 <= i < j < |r| :: r[i].name != r[j].name
    ensures EntriesOf(Unpruned(dirs, a), name)
         == if a.name != name || (a.Open? && a.signatureMatches) then EntriesOf(dirs, name) else Written(a)
  {
    WithEntriesMembers(dirs, a.name, Written(a));
    EntriesOfWith(dirs, a.name, Written(a));
    if name != a.name {
      EntriesOfOthers(dirs, a.name, Written(a), name);
    }
  }

  lemma SweptNames(dirs: seq<Directory>, current: nat, unremovable: set<nat>)
    requires forall i, j | 0 <= i < j < |dirs| :: dirs[i].name != dirs[j].name
    ensures var r := Swept(dirs, current, unremovable); forall i, j | 0 <= i < j < |r| :: r[i].name != r[j].name
  {
    var r := Swept(dirs, current, unremovable);
    forall i, j | 0 <= i < j < |r|
      ensures r[i].name != r[j].name
    {
      SweepKeepsNames(dirs, current, unremovable, i, j);
    }
  }

  // A cache that is never over its caps lists for each workspace exactly what was stored for it last.
  lemma {:induction false} HeldIsLatest(history: seq<Action>, unremovable: set<nat>, name: nat)
    ensures EntriesOf(Held(history, unremovable), name) == Latest(history, name)
    ensures var r := Held(history, unremovable); forall i, j | 0 <= i < j < |r| :: r[i].name != r[j].name
  {
    if history != [] {
      var (before, a) := (Before(history), Last(history));
      HeldIsLatest(before, unremovable, name);
      UnprunedIsLatest(Held(before, unremovable), a, name);
      var dirs := Unpruned(Held(before, unremovable), a);
      SweepKeepsListing(dirs, a.name, unremovable, name);
      SweptNames(dirs, a.name, unremovable);
    }
  }

  // Over every history of openings, scans and validations, from an empty cache and with deletions
  // succeeding, each directory keeps to its caps but those that validation left over them and nothing
  // has pruned since. All directories together keep to theirs after every prune that had more than two
  // directories to go over or none that was over its caps. With at most two workspaces the exception is
  // exact: such a directory stays over its caps. And while every prune finds the caps kept, nothing is
  // ever evicted.
  method Replay(perDir: Caps, total: Caps, unremovable: set<nat>, history: seq<Action>) returns (cache: ParseCache)
    requires CapsFit(perDir, total) && Countable(history, perDir, total)
    ensures fresh(cache) && Tidy(cache.dirs, perDir, Refilled(history, perDir))
    ensures EndsPruned(history) && (|cache.dirs| > 2 || Refilled(history, perDir) == {}) ==>
              Within(All(cache.dirs), total.maxEntries, total.maxBytes)
    ensures |Workspaces(history)| <= 2 ==> StillOver(cache.dirs, perDir, Refilled(history, perDir))
    ensures Fits(history, unremovable, perDir, total) ==> cache.dirs == Held(history, unremovable)
  {
    cache := new ParseCache(perDir, total, {}, unremovable);
    ghost var done := [];
    for i := 0 to |history|
      invariant fresh(cache) && cache.undeletable == {} && cache.unremovable == unremovable
      invariant cache.perDir == perDir && cache.total == total
      invariant done == history[..i] && Replayed(cache, done)
    {
      NextIsCountable(history, i, perDir, total);
      Act(cache, history[i], done);
      done := done + [history[i]];
    }
    WholeSlice(history);
  }

  // The cache after a history.
  ghost predicate Replayed(cache: ParseCache, history: seq<Action>)
    reads cache
  {
    var (perDir, total) := (cache.perDir, cache.total);
    && cache.Valid() && cache.refilled == Refilled(history, perDir)
    && Sum(All(cache.dirs)) <= Load(history, perDir, total)
    && DirNames(cache.dirs) <= Workspaces(history)
    && (EndsPruned(history) && (|cache.dirs| > 2 || cache.refilled == {}) ==>
          Within(All(cache.dirs), total.maxEntries, total.maxBytes))
    && (|Workspaces(history)| <= 2 ==> StillOver(cache.dirs, perDir, cache.refilled))
    && Unevicted(cache.dirs, history, cache.unremovable, perDir, total)
  }

  ghost predicate Unevicted(
    dirs: seq<Directory>, history: seq<Action>, unremovable: set<nat>, perDir: Caps, total: Caps)
  {
    Fits(history, unremovable, perDir, total) ==> dirs == Held(history, unremovable)
  }

  // One more action, with the prune it ends on if it has one, evicts nothing while the caps are kept.
  lemma UnevictedKeeps(
    before: seq<Action>, a: Action, was: seq<Directory>, mid: seq<Directory>, now: seq<Directory>,
    undeletable: set<EntryPath>, unremovable: set<nat>, perDir: Caps, total: Caps)
    requires Unevicted(was, before, unremovable, perDir, total)
    requires if a.Validate? then now == Unpruned(was, a)
             else
               && (DirPruned(Unpruned(was, a), mid, a.name, undeletable, perDir) || mid == Unpruned(was, a))
               && OthersPruned(mid, now, a.name, undeletable, unremovable, total)
    ensures Unevicted(now, before + [a], unremovable, perDir, total)
  {
    var after := before + [a];
    assert Before(after) == before && Last(after) == a;
  }

  ghost predicate StillOver(dirs: seq<Directory>, perDir: Caps, names: set<nat>) {
    forall n | n in names :: !Within(EntriesOf(dirs, n), perDir.maxEntries, perDir.maxBytes)
  }

  lemma {:induction false} StartsCountable(history: seq<Action>, n: nat, perDir: Caps, total: Caps)
    requires Countable(history, perDir, total) && n <= |history|
    ensures Countable(history[..n], perDir, total)
    decreases |history|
  {
    if n == |history| {
      assert history[..n] == history;
    } else {
      StartsCountable(Before(history), n, perDir, total);
      assert Before(history)[..n] == history[..n];
    }
  }

  lemma NextIsCountable(history: seq<Action>, i: nat, perDir: Caps, total: Caps)
    requires Countable(history, perDir, total) && i < |history|
    ensures history[..i + 1] == history[..i] + [history[i]]
    ensures Countable(history[..i] + [history[i]], perDir, total)
  {
    StartsCountable(history, i + 1, perDir, total);
    SliceNext(history, i);
  }

  lemma SliceNext<T>(s: seq<T>, i: nat)
    requires i < |s|
    ensures s[..i + 1] == s[..i] + [s[i]]
  {
  }

  lemma WholeSlice<T>(s: seq<T>)
    ensures s[..|s|] == s
  {
  }

  lemma OneMoreWorkspace(before: seq<Action>, a: Action)
    ensures Workspaces(before + [a]) == Workspaces(before) + {a.name}
    ensures |Workspaces(before)| <= |Workspaces(before + [a])|
  {
    assert Workspaces(before + [a]) == Workspaces(before) + {a.name};
    SubsetSize(Workspaces(before), Workspaces(before + [a]));
  }

  lemma {:induction false} SubsetSize(a: set<nat>, b: set<nat>)
    requires a <= b
    ensures |a| <= |b|
    decreases |a|
  {
    if x :| x in a {
      SubsetSize(a - {x}, b - {x});
    }
  }

  // One more action keeps the count of the bytes.
  lemma LoadKeeps(before: seq<Action>, a: Action, was: nat, now: nat, perDir: Caps, total: Caps)
    requires was <= Load(before, perDir, total) && now <= was + Sum(Written(a))
    requires EndsPruned(before + [a]) && Refilled(before + [a], perDir) == {} ==> now <= total.maxBytes
    ensures now <= Load(before + [a], perDir, total)
  {
    var after := before + [a];
    assert Before(after) == before && Last(after) == a;
  }

  lemma NamesKeep(before: seq<Action>, a: Action, was: seq<Directory>, now: seq<Directory>)
    requires DirNames(was) <= Workspaces(before) && DirNames(now) <= DirNames(was) + {a.name}
    ensures DirNames(now) <= Workspaces(before + [a])
    ensures |Workspaces(before + [a])| <= 2 ==> |Workspaces(before)| <= 2 && |DirNames(was) + {a.name}| <= 2
  {
    OneMoreWorkspace(before, a);
    SubsetSize(DirNames(was) + {a.name}, Workspaces(before + [a]));
  }

  // One more action keeps the exceptions exact while no other directory changes.
  lemma StillOverKeeps(before: seq<Action>, a: Action, was: seq<Directory>, now: seq<Directory>, perDir: Caps)
    requires StillOver(was, perDir, Refilled(before, perDir)) && SameListings(was, now, a.name)
    requires a.Validate? ==> EntriesOf(now, a.name) == a.written
    ensures StillOver(now, perDir, Refilled(before + [a], perDir))
  {
    var after := before + [a];
    assert Before(after) == before && Last(after) == a;
  }

  method Act(cache: ParseCache, a: Action, ghost before: seq<Action>)
    requires Replayed(cache, before) && cache.undeletable == {}
    requires Countable(before + [a], cache.perDir, cache.total)
    modifies cache
    ensures Replayed(cache, before + [a])
  {
    ghost var was := cache.dirs;
    ghost var mid := was;
    assert Before(before + [a]) == before && Last(before + [a]) == a;
    match a {
      case Open(name, signatureMatches) =>
        assert Sum(Written(a)) == 0;
        ghost var removed;
        var hit;
        hit, mid, removed := cache.ValidateOrClear(name, signatureMatches);
      case Scan(name, written) =>
        mid := cache.ScanBatch(name, written);
      case Validate(name, written) => cache.Validate(name, written);
    }
    UnevictedKeeps(
      before, a, was, mid, cache.dirs, cache.undeletable, cache.unremovable, cache.perDir, cache.total);
    LoadKeeps(before, a, Sum(All(was)), Sum(All(cache.dirs)), cache.perDir, cache.total);
    NamesKeep(before, a, was, cache.dirs);
    if |Workspaces(before + [a])| <= 2 {
      StillOverKeeps(before, a, was, cache.dirs, cache.perDir);
    }
  }

  // `count` files of no size.
  function Many(name: nat, count: nat): (r: seq<Entry>)
    ensures |r| == count && Distinct(multiset(r)) && Sum(r) == 0 && forall e | e in r :: e.path.dir == name
    ensures forall e | e in r :: e.path.name < count
  {
    if count == 0 then []
    else
      var fewer := Many(name, count - 1);
      var e := Entry(0, 0, EntryPath(name, count - 1));
      OneMoreIsDistinct(fewer, e);
      fewer + [e]
  }

  lemma OneMoreIsDistinct(entries: seq<Entry>, e: Entry)
    requires Distinct(multiset(entries)) && forall x | x in entries :: x.path != e.path
    ensures Distinct(multiset(entries + [e]))
  {
    assert forall x | x in multiset(entries) :: x in entries;
  }

  // Under any caps, a validation after a scan can leave a workspace over both of them for good: a scan
  // of another workspace prunes that one only, and skips the global pass at two directories.
  method RefillBreaksCaps(perDir: Caps, total: Caps) returns (cache: ParseCache)
    requires CapsFit(perDir, total)
    ensures fresh(cache) && EntriesOf(cache.dirs, 1) == Many(1, total.maxEntries + 1)
    ensures !Within(EntriesOf(cache.dirs, 1), perDir.maxEntries, perDir.maxBytes)
    ensures !Within(All(cache.dirs), total.maxEntries, total.maxBytes)
  {
    cache := new ParseCache(perDir, total, {}, {});
    var written := Many(1, total.maxEntries + 1);
    ghost var mid := cache.ScanBatch(1, []);
    cache.Validate(1, written);
    SubsetSize(DirNames(cache.dirs) + {2}, {1, 2});
    mid := cache.ScanBatch(2, []);
    EntriesFitAll(cache.dirs, 1);
  }

  lemma {:induction false} EntriesFitAll(dirs: seq<Directory>, name: nat)
    ensures |EntriesOf(dirs, name)| <= |All(dirs)|
  {
    if dirs != [] {
      EntriesFitAll(dirs[..|dirs| - 1], name);
    }
  }

  // Where the retain pass stands before entry `i`: all of the first `cut` entries were tried, and
  // everything since was kept because both targets were met by then.
  ghost predicate Retaining(
    sorted: seq<Entry>, undeletable: set<EntryPath>, targetEntries: nat, targetBytes: nat,
    cut: nat, i: nat, kept: seq<Entry>, curCount: nat, curBytes: nat)
  {
    && cut <= i <= |sorted|
    && (cut < i ==> curCount <= targetEntries && curBytes <= targetBytes)
    && kept == Stuck(sorted[..cut], undeletable) + sorted[cut..i]
    && curCount == |Left(sorted, undeletable, cut)|
    && curBytes == Sum(Left(sorted, undeletable, cut))
    && forall m | 0 <= m < cut :: !Within(Left(sorted, undeletable, m), targetEntries, targetBytes)
  }

  lemma RetainStarts(sorted: seq<Entry>, undeletable: set<EntryPath>, targetEntries: nat, targetBytes: nat)
    requires Sum(sorted) <= U64_MAX
    ensures Retaining(sorted, undeletable, targetEntries, targetBytes, 0, 0, [], |sorted|, SaturatingSum(sorted))
    ensures Removed(sorted, undeletable, 0) == {}
  {
    NoSaturation(sorted);
    assert Left(sorted, undeletable, 0) == sorted;
  }

  lemma RetainKeeps(
    sorted: seq<Entry>, undeletable: set<EntryPath>, targetEntries: nat, targetBytes: nat,
    cut: nat, i: nat, kept: seq<Entry>, curCount: nat, curBytes: nat)
    requires Retaining(sorted, undeletable, targetEntries, targetBytes, cut, i, kept, curCount, curBytes)
    requires i < |sorted| && curCount <= targetEntries && curBytes <= targetBytes
    ensures Retaining(
              sorted, undeletable, targetEntries, targetBytes, cut, i + 1, kept + [sorted[i]], curCount, curBytes)
  {
    assert sorted[cut..i + 1] == sorted[cut..i] + [sorted[i]];
  }

  lemma RetainRemoves(
    sorted: seq<Entry>, undeletable: set<EntryPath>, targetEntries: nat, targetBytes: nat,
    cut: nat, i: nat, kept: seq<Entry>, curCount: nat, curBytes: nat)
    requires Retaining(sorted, undeletable, targetEntries, targetBytes, cut, i, kept, curCount, curBytes)
    requires i < |sorted| && !(curCount <= targetEntries && curBytes <= targetBytes)
    ensures cut == i && curCount > 0
    ensures if sorted[i].path in undeletable
            then Retaining(sorted, undeletable, targetEntries, targetBytes,
                           i + 1, i + 1, kept + [sorted[i]], curCount, curBytes)
            else Retaining(sorted, undeletable, targetEntries, targetBytes,
                           i + 1, i + 1, kept, curCount - 1, SaturatingSub(curBytes, sorted[i].size))
  {
    assert sorted[..i + 1][..i] == sorted[..i];
    LeftNext(sorted, undeletable, i);
    assert !Within(Left(sorted, undeletable, i), targetEntries, targetBytes);
  }

  lemma RetainDone(
    sorted: seq<Entry>, undeletable: set<EntryPath>, targetEntries: nat, targetBytes: nat,
    cut: nat, kept: seq<Entry>, curCount: nat, curBytes: nat)
    requires Retaining(sorted, undeletable, targetEntries, targetBytes, cut, |sorted|, kept, curCount, curBytes)
    ensures ShortestCut(sorted, undeletable, targetEntries, targetBytes, cut)
    ensures kept == Left(sorted, undeletable, cut)
  {
  }

  lemma RemovedNext(sorted: seq<Entry>, undeletable: set<EntryPath>, cut: nat)
    requires cut < |sorted|
    ensures Removed(sorted, undeletable, cut + 1)
         == Removed(sorted, undeletable, cut) + (if sorted[cut].path in undeletable then {} else {sorted[cut].path})
  {
    assert sorted[..cut + 1] == sorted[..cut] + [sorted[cut]];
  }

  lemma DropNext(dirs: seq<Directory>, sorted: seq<Entry>, undeletable: set<EntryPath>, cut: nat)
    requires cut < |sorted|
    ensures DropFiles(dirs, Removed(sorted, undeletable, cut + 1))
         == DropFiles(DropFiles(dirs, Removed(sorted, undeletable, cut)),
                      if sorted[cut].path in undeletable then {} else {sorted[cut].path})
  {
    RemovedNext(sorted, undeletable, cut);
    var more := if sorted[cut].path in undeletable then {} else {sorted[cut].path};
    DropTwice(dirs, Removed(sorted, undeletable, cut), more);
  }

  lemma PathsOfPermutation(sorted: seq<Entry>, entries: seq<Entry>, cut: nat)
    requires multiset(sorted) == multiset(entries) && cut <= |sorted|
    ensures Paths(sorted[..cut]) <= Paths(entries)
  {
    forall e | e in sorted[..cut]
      ensures e in entries
    {
      assert e in multiset(sorted);
    }
  }
}
