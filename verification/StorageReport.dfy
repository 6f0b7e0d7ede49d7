// The storage report and the orphan list, and what ties both to the files on disk.
module StorageReports {
  import opened Wrappers
  import opened PathOrder
  import opened Storage

  // ---------------------------------------------------------------- what the walker finds

  // The tree holds a file at the relative path.
  ghost predicate HasFile(listing: Listing, rel: Path)
    decreases |rel|
  {
    && listing.Readable? && rel != []
    && exists i :: 0 <= i < |listing.entries| && EntryHasFile(listing.entries[i], rel)
  }

  ghost predicate EntryHasFile(e: Entry, rel: Path)
    requires rel != []
    decreases |rel|, 0
  {
    if |rel| == 1 then e == File(rel[0])
    else e.Dir? && e.name == rel[0] && HasFile(e.listing, rel[1..])
  }

  // Named `*.partial`, at most `3 - depth` directories down, none of them with a leading dot.
  ghost predicate Wanted(rel: Path, depth: nat) {
    && 1 <= |rel| && |rel| + depth <= 4
    && (forall k :: 0 <= k < |rel| - 1 ==> rel[k] == "" || rel[k][0] != '.')
    && var name := rel[|rel| - 1]; |name| >= 8 && name[|name| - 8..] == ".partial"
  }

  predicate IsUnder(p: Path, dir: Path) {
    |p| > |dir| && p[..|dir|] == dir
  }

  ghost predicate Found(listing: Listing, dir: Path, depth: nat, p: Path) {
    IsUnder(p, dir) && HasFile(listing, p[|dir|..]) && Wanted(p[|dir|..], depth)
  }

  lemma BagOfMember(entries: seq<Entry>, path: Path, depth: nat, p: Path)
    ensures p in BagOf(entries, path, depth)
            <==> exists i :: 0 <= i < |entries| && p in EntryBag(entries[i], path, depth)
  {
    if entries != [] {
      var front := entries[..|entries| - 1];
      BagOfMember(front, path, depth, p);
      assert forall i :: 0 <= i < |front| ==> front[i] == entries[i];
    }
  }

  lemma WantedBelow(rel: Path, depth: nat)
    requires |rel| > 1
    ensures Wanted(rel, depth) <==> !IsHidden(rel[0]) && depth < MAX_DEPTH + 1 && Wanted(rel[1..], depth + 1)
  {
    var tail := rel[1..];
    assert forall k :: 0 <= k < |tail| ==> tail[k] == rel[k + 1];
    if !IsHidden(rel[0]) && Wanted(tail, depth + 1) {
      assert forall k :: 1 <= k < |rel| - 1 ==> rel[k] == tail[k - 1];
    }
  }

  lemma {:induction false} EntryMember(e: Entry, path: Path, depth: nat, p: Path)
    requires depth <= MAX_DEPTH
    ensures p in EntryBag(e, path, depth)
            <==> IsUnder(p, path) && EntryHasFile(e, p[|path|..]) && Wanted(p[|path|..], depth)
    decreases e, 0
  {
    match e
    case File(name) =>
      if IsUnder(p, path) {
        var rel := p[|path|..];
        assert p == path + rel;
        assert |rel| == 1 ==> rel == [rel[0]];
      }
      assert p == path + [name] ==> IsUnder(p, path) && p[|path|..] == [name];
    case Dir(name, listing) =>
      var inner := path + [name];
      if IsUnder(p, inner) {
        assert p[..|path|] == p[..|inner|][..|path|] == path;
        assert p[|path|] == p[..|inner|][|path|] == name;
      }
      if IsUnder(p, path) && p[|path|] == name && |p| > |path| + 1 {
        assert p[..|inner|] == inner;
        assert p[|path|..][1..] == p[|inner|..];
        WantedBelow(p[|path|..], depth);
      }
      if depth < MAX_DEPTH {
        BagMember(listing, inner, depth + 1, p);
      }
    case Skipped(_) =>
  }

  // The worklist result, stated without recursion over the tree: p is in it exactly when p is a
  // partial file at depth at most 3, reached without entering a hidden directory.
  lemma {:induction false} BagMember(listing: Listing, dir: Path, depth: nat, p: Path)
    requires depth <= MAX_DEPTH
    ensures p in Bag(listing, dir, depth) <==> Found(listing, dir, depth, p)
    decreases listing, 1
  {
    if listing.Readable? {
      var entries := listing.entries;
      BagOfMember(entries, dir, depth, p);
      forall i | 0 <= i < |entries|
        ensures p in EntryBag(entries[i], dir, depth)
                <==> IsUnder(p, dir) && EntryHasFile(entries[i], p[|dir|..]) && Wanted(p[|dir|..], depth)
      {
        EntryMember(entries[i], dir, depth, p);
      }
    }
  }

  // A file system lists each name once per directory.
  predicate WellNamed(listing: Listing)
    decreases listing, 1
  {
    listing.Readable? ==>
      && DistinctNames(listing.entries)
      && forall i :: 0 <= i < |listing.entries| ==> WellNamedEntry(listing.entries[i])
  }

  predicate WellNamedEntry(e: Entry)
    decreases e, 0
  {
    e.Dir? ==> WellNamed(e.listing)
  }

  predicate DistinctNames(entries: seq<Entry>) {
    forall i, j :: 0 <= i < j < |entries| ==> entries[i].name != entries[j].name
  }

  lemma EntryOwnsName(e: Entry, path: Path, depth: nat, p: Path)
    requires depth <= MAX_DEPTH && p in EntryBag(e, path, depth)
    ensures IsUnder(p, path) && p[|path|] == e.name
  {
    EntryMember(e, path, depth, p);
  }

  lemma {:induction false} EntriesOnce(entries: seq<Entry>, path: Path, depth: nat, p: Path)
    requires depth <= MAX_DEPTH && DistinctNames(entries)
    requires forall i :: 0 <= i < |entries| ==> EntryBag(entries[i], path, depth)[p] <= 1
    ensures BagOf(entries, path, depth)[p] <= 1
    decreases |entries|
  {
    if entries != [] {
      var front, last := entries[..|entries| - 1], entries[|entries| - 1];
      assert forall i :: 0 <= i < |front| ==> front[i] == entries[i];
      EntriesOnce(front, path, depth, p);
      if p in EntryBag(last, path, depth) && p in BagOf(front, path, depth) {
        BagOfMember(front, path, depth, p);
        var i :| 0 <= i < |front| && p in EntryBag(front[i], path, depth);
        EntryOwnsName(front[i], path, depth, p);
        EntryOwnsName(last, path, depth, p);
      }
    }
  }

  // No file is found twice.
  lemma {:induction false} FoundOnce(listing: Listing, dir: Path, depth: nat, p: Path)
    requires depth <= MAX_DEPTH && WellNamed(listing)
    ensures Bag(listing, dir, depth)[p] <= 1
    decreases listing, 1
  {
    if listing.Readable? {
      var entries := listing.entries;
      forall i | 0 <= i < |entries| ensures EntryBag(entries[i], dir, depth)[p] <= 1 {
        EntryOnce(entries[i], dir, depth, p);
      }
      EntriesOnce(entries, dir, depth, p);
    }
  }

  lemma {:induction false} EntryOnce(e: Entry, path: Path, depth: nat, p: Path)
    requires depth <= MAX_DEPTH && WellNamedEntry(e)
    ensures EntryBag(e, path, depth)[p] <= 1
    decreases e, 0
  {
    if e.Dir? && depth < MAX_DEPTH && !IsHidden(e.name) {
      FoundOnce(e.listing, path + [e.name], depth + 1, p);
    }
  }

  // What find_partial_files returns, whatever the tree: each partial file in reach, once.
  lemma WalkerIsExact(found: seq<Path>, listing: Listing, dir: Path)
    requires WellNamed(listing) && multiset(found) == Bag(listing, dir, 0)
    ensures forall p :: p in found <==> IsUnder(p, dir) && HasFile(listing, p[|dir|..]) && Wanted(p[|dir|..], 0)
    ensures forall i, j :: 0 <= i < j < |found| ==> found[i] != found[j]
  {
    forall p ensures p in found <==> Found(listing, dir, 0, p) {
      assert p in found <==> p in multiset(found);
      BagMember(listing, dir, 0, p);
    }
    forall i, j | 0 <= i < j < |found| ensures found[i] != found[j] {
      FoundOnce(listing, dir, 0, found[i]);
      assert found == found[..j] + [found[j]] + found[j + 1..];
      assert found[i] in found[..j];
      assert found[i] == found[j] ==> multiset(found)[found[i]] >= 2;
    }
  }

  // ---------------------------------------------------------------- report and orphans

  // Model ID owning a file: the first component below models_dir, or the file name.
  function ModelIdFor(modelsDir: Path, file: Path): string {
    if IsUnder(file, modelsDir) then file[|modelsDir|]
    else if file != [] then file[|file| - 1]
    else ""
  }

  // Below models_dir the first component, elsewhere the last.
  lemma ModelIds(modelsDir: Path, front: Path, name: string, rest: Path)
    ensures ModelIdFor(modelsDir, modelsDir + [name] + rest) == name
    ensures !IsUnder(front + [name], modelsDir) ==> ModelIdFor(modelsDir, front + [name]) == name
    ensures ModelIdFor(modelsDir, []) == ""
  {
    assert (modelsDir + [name] + rest)[..|modelsDir|] == modelsDir;
  }

  datatype PartialInfo = PartialInfo(modelId: string, filename: string, path: Path)
  datatype Report = Report(partials: seq<PartialInfo>, orphans: seq<Path>)

  function PathsOf(infos: seq<PartialInfo>): seq<Path> {
    seq(|infos|, i requires 0 <= i < |infos| => infos[i].path)
  }

  predicate IsUntracked(e: Entry, modelsDir: Path, tracked: seq<Path>) {
    e.Dir? && modelsDir + [e.name] !in tracked
  }

  // Top-level directories the index does not track, in listing order.
  function UntrackedDirs(entries: seq<Entry>, modelsDir: Path, tracked: seq<Path>): seq<Path> {
    if entries == [] then []
    else
      var last := entries[|entries| - 1];
      UntrackedDirs(entries[..|entries| - 1], modelsDir, tracked)
      + if IsUntracked(last, modelsDir, tracked) then [modelsDir + [last.name]] else []
  }

  // Those of them in which the walker finds nothing.
  function EmptyDirs(entries: seq<Entry>, modelsDir: Path, tracked: seq<Path>): seq<Path> {
    if entries == [] then []
    else
      var last := entries[|entries| - 1];
      EmptyDirs(entries[..|entries| - 1], modelsDir, tracked)
      + if IsUntracked(last, modelsDir, tracked) && Bag(last.listing, modelsDir + [last.name], 0) == multiset{}
        then [modelsDir + [last.name]] else []
  }

  // All partial files below untracked directories.
  function UntrackedPartials(entries: seq<Entry>, modelsDir: Path, tracked: seq<Path>): multiset<Path> {
    if entries == [] then multiset{}
    else
      var last := entries[|entries| - 1];
      UntrackedPartials(entries[..|entries| - 1], modelsDir, tracked)
      + if IsUntracked(last, modelsDir, tracked) then Bag(last.listing, modelsDir + [last.name], 0) else multiset{}
  }

  // StorageManager::report, the scan: nothing if models_dir is missing or unreadable.
  method MakeReport(modelsDir: Path, root: Option<Listing>, tracked: seq<Path>) returns (r: Report)
    ensures root.None? || root.value.Unreadable? ==> r == Report([], [])
    ensures root.Some? && root.value.Readable? ==>
              var entries := root.value.entries;
              && r.orphans == EmptyDirs(entries, modelsDir, tracked)
              && multiset(PathsOf(r.partials)) == UntrackedPartials(entries, modelsDir, tracked)
    ensures forall info :: info in r.partials ==>
              && IsUnder(info.path, modelsDir)
              && info.modelId == info.path[|modelsDir|] && info.filename == info.path[|info.path| - 1]
  {
    hide Bag, EmptyDirs, UntrackedPartials, PathsOf;
    NoEntries(modelsDir, tracked);
    var partials: seq<PartialInfo>, orphans: seq<Path> := [], [];
    if root.None? || root.value.Unreadable? {
      return Report(partials, orphans);
    }
    var entries := root.value.entries;
    var i := 0;
    while i < |entries|
      invariant i <= |entries|
      invariant orphans == EmptyDirs(entries[..i], modelsDir, tracked)
      invariant multiset(PathsOf(partials)) == UntrackedPartials(entries[..i], modelsDir, tracked)
      invariant OwnedBy(partials, modelsDir)
    {
      OneMoreEntry(entries, modelsDir, tracked, i);
      if IsUntracked(entries[i], modelsDir, tracked) {
        var dir := modelsDir + [entries[i].name];
        var found := FindPartialFiles(dir, entries[i].listing);
        if found == [] {
          orphans := orphans + [dir];
        } else {
          assert multiset(found)[found[0]] > 0;
          BelowModels(modelsDir, entries[i].name, entries[i].listing, found);
          var infos := Describe(modelsDir, found);
          PathsConcat(partials, infos);
          partials := partials + infos;
        }
      }
      i := i + 1;
    }
    assert entries[..i] == entries;
    r := Report(partials, orphans);
  }

  lemma NoEntries(modelsDir: Path, tracked: seq<Path>)
    ensures EmptyDirs([], modelsDir, tracked) == [] && UntrackedPartials([], modelsDir, tracked) == multiset{}
    ensures PathsOf([]) == []
  {
  }

  lemma OneMoreEntry(entries: seq<Entry>, modelsDir: Path, tracked: seq<Path>, i: nat)
    requires i < |entries|
    ensures var dir := modelsDir + [entries[i].name];
            var bag :=
              if IsUntracked(entries[i], modelsDir, tracked) then Bag(entries[i].listing, dir, 0) else multiset{};
            && EmptyDirs(entries[..i + 1], modelsDir, tracked)
               == EmptyDirs(entries[..i], modelsDir, tracked)
                  + (if IsUntracked(entries[i], modelsDir, tracked) && bag == multiset{} then [dir] else [])
            && UntrackedPartials(entries[..i + 1], modelsDir, tracked)
               == UntrackedPartials(entries[..i], modelsDir, tracked) + bag
  {
    hide Bag, IsUntracked;
    assert entries[..i + 1][..i] == entries[..i];
  }

  ghost predicate OwnedBy(infos: seq<PartialInfo>, modelsDir: Path) {
    forall info :: info in infos ==>
      && IsUnder(info.path, modelsDir)
      && info.modelId == info.path[|modelsDir|] && info.filename == info.path[|info.path| - 1]
  }

  lemma PathsConcat(a: seq<PartialInfo>, b: seq<PartialInfo>)
    ensures PathsOf(a + b) == PathsOf(a) + PathsOf(b)
  {
  }

  lemma BelowModels(modelsDir: Path, name: string, listing: Listing, found: seq<Path>)
    requires multiset(found) == Bag(listing, modelsDir + [name], 0)
    ensures forall p :: p in found ==> IsUnder(p, modelsDir) && p[|modelsDir|] == name
  {
    forall p | p in found ensures IsUnder(p, modelsDir) && p[|modelsDir|] == name {
      assert p in multiset(found);
      BagMember(listing, modelsDir + [name], 0, p);
      assert p[..|modelsDir|] == p[..|modelsDir| + 1][..|modelsDir|];
      assert p[|modelsDir|] == p[..|modelsDir| + 1][|modelsDir|];
    }
  }

  function Describe(modelsDir: Path, found: seq<Path>): (infos: seq<PartialInfo>)
    requires forall p :: p in found ==> IsUnder(p, modelsDir)
    ensures PathsOf(infos) == found && OwnedBy(infos, modelsDir)
  {
    seq(|found|, i requires 0 <= i < |found| && IsUnder(found[i], modelsDir) =>
      PartialInfo(ModelIdFor(modelsDir, found[i]), found[i][|found[i]| - 1], found[i]))
  }

  // StorageManager::find_orphans: an unreadable models_dir is an error, a missing one is empty.
  method FindOrphans(modelsDir: Path, root: Option<Listing>, tracked: seq<Path>) returns (r: Result<seq<Path>, ()>)
    ensures r == match root
                 case None => Ok([])
                 case Some(Unreadable) => Err(())
                 case Some(Readable(entries)) => Ok(UntrackedDirs(entries, modelsDir, tracked))
  {
    if root.None? {
      return Ok([]);
    }
    if root.value.Unreadable? {
      return Err(());
    }
    var entries := root.value.entries;
    var orphans: seq<Path> := [];
    var i := 0;
    while i < |entries|
      invariant i <= |entries| && orphans == UntrackedDirs(entries[..i], modelsDir, tracked)
    {
      assert entries[..i + 1][..i] == entries[..i];
      if IsUntracked(entries[i], modelsDir, tracked) {
        orphans := orphans + [modelsDir + [entries[i].name]];
      }
      i := i + 1;
    }
    assert entries[..i] == entries;
    return Ok(orphans);
  }

  // ---------------------------------------------------------------- both lists together

  lemma UntrackedMember(entries: seq<Entry>, modelsDir: Path, tracked: seq<Path>, dir: Path)
    ensures dir in UntrackedDirs(entries, modelsDir, tracked)
            <==> exists i ::
                   && 0 <= i < |entries| && IsUntracked(entries[i], modelsDir, tracked)
                   && dir == modelsDir + [entries[i].name]
  {
    hide IsUntracked;
    if entries != [] {
      var front := entries[..|entries| - 1];
      UntrackedMember(front, modelsDir, tracked, dir);
      assert forall i :: 0 <= i < |front| ==> front[i] == entries[i];
    }
  }

  lemma EmptyMember(entries: seq<Entry>, modelsDir: Path, tracked: seq<Path>, dir: Path)
    ensures dir in EmptyDirs(entries, modelsDir, tracked)
            <==> exists i ::
                   && 0 <= i < |entries| && IsUntracked(entries[i], modelsDir, tracked)
                   && dir == modelsDir + [entries[i].name] && Bag(entries[i].listing, dir, 0) == multiset{}
  {
    hide IsUntracked, Bag;
    if entries != [] {
      var front := entries[..|entries| - 1];
      EmptyMember(front, modelsDir, tracked, dir);
      assert forall i :: 0 <= i < |front| ==> front[i] == entries[i];
    }
  }

  lemma PartialMember(entries: seq<Entry>, modelsDir: Path, tracked: seq<Path>, p: Path)
    ensures p in UntrackedPartials(entries, modelsDir, tracked)
            <==> exists i :: 0 <= i < |entries| && IsUntracked(entries[i], modelsDir, tracked)
                             && p in Bag(entries[i].listing, modelsDir + [entries[i].name], 0)
  {
    if entries != [] {
      var front := entries[..|entries| - 1];
      PartialMember(front, modelsDir, tracked, p);
      assert forall i :: 0 <= i < |front| ==> front[i] == entries[i];
    }
  }

  // The untracked directories are those among the entries whose path the index does not hold, in listing
  // order, each as often as listed.
  lemma UntrackedByEntry(a: seq<Entry>, b: seq<Entry>, e: Entry, modelsDir: Path, tracked: seq<Path>)
    ensures UntrackedDirs([], modelsDir, tracked) == []
    ensures UntrackedDirs([e], modelsDir, tracked)
            == if e.Dir? && modelsDir + [e.name] !in tracked then [modelsDir + [e.name]] else []
    ensures UntrackedDirs(a + b, modelsDir, tracked)
            == UntrackedDirs(a, modelsDir, tracked) + UntrackedDirs(b, modelsDir, tracked)
  {
    assert [e][..0] == [];
    UntrackedConcat(a, b, modelsDir, tracked);
  }

  lemma {:induction false} UntrackedConcat(a: seq<Entry>, b: seq<Entry>, modelsDir: Path, tracked: seq<Path>)
    ensures UntrackedDirs(a + b, modelsDir, tracked)
            == UntrackedDirs(a, modelsDir, tracked) + UntrackedDirs(b, modelsDir, tracked)
    decreases |b|
  {
    hide IsUntracked;
    if b == [] {
      assert a + b == a;
    } else {
      var front := b[..|b| - 1];
      assert (a + b)[..|a + b| - 1] == a + front;
      UntrackedConcat(a, front, modelsDir, tracked);
    }
  }

  // Of the untracked directories, the report's orphans are those without a partial file at depth at most
  // 3 reached without entering a directory with a leading dot.
  lemma OrphansByEntry(a: seq<Entry>, b: seq<Entry>, e: Entry, modelsDir: Path, tracked: seq<Path>)
    ensures EmptyDirs([], modelsDir, tracked) == []
    ensures var dir := modelsDir + [e.name];
            EmptyDirs([e], modelsDir, tracked)
            == if e.Dir? && dir !in tracked && (forall p :: !Found(e.listing, dir, 0, p)) then [dir] else []
    ensures EmptyDirs(a + b, modelsDir, tracked)
            == EmptyDirs(a, modelsDir, tracked) + EmptyDirs(b, modelsDir, tracked)
  {
    assert [e][..0] == [];
    if e.Dir? {
      NothingFound(e.listing, modelsDir + [e.name]);
    }
    OrphansConcat(a, b, modelsDir, tracked);
  }

  lemma NothingFound(listing: Listing, dir: Path)
    ensures Bag(listing, dir, 0) == multiset{} <==> forall p :: !Found(listing, dir, 0, p)
  {
    hide Bag, Found;
    forall p ensures p in Bag(listing, dir, 0) <==> Found(listing, dir, 0, p) {
      BagMember(listing, dir, 0, p);
    }
    if Bag(listing, dir, 0) != multiset{} {
      var p :| p in Bag(listing, dir, 0);
    }
  }

  lemma {:induction false} OrphansConcat(a: seq<Entry>, b: seq<Entry>, modelsDir: Path, tracked: seq<Path>)
    ensures EmptyDirs(a + b, modelsDir, tracked)
            == EmptyDirs(a, modelsDir, tracked) + EmptyDirs(b, modelsDir, tracked)
    decreases |b|
  {
    hide IsUntracked, Bag;
    if b == [] {
      assert a + b == a;
    } else {
      var front := b[..|b| - 1];
      assert (a + b)[..|a + b| - 1] == a + front;
      OrphansConcat(a, front, modelsDir, tracked);
    }
  }

  // The reported partials are exactly such files below directories the index does not hold.
  lemma PartialsByEntry(entries: seq<Entry>, modelsDir: Path, tracked: seq<Path>, p: Path)
    ensures p in UntrackedPartials(entries, modelsDir, tracked)
            <==> exists i ::
                   && 0 <= i < |entries| && entries[i].Dir? && modelsDir + [entries[i].name] !in tracked
                   && Found(entries[i].listing, modelsDir + [entries[i].name], 0, p)
  {
    hide Bag, Found;
    PartialMember(entries, modelsDir, tracked, p);
    forall i | 0 <= i < |entries| && entries[i].Dir?
      ensures var dir := modelsDir + [entries[i].name];
              p in Bag(entries[i].listing, dir, 0) <==> Found(entries[i].listing, dir, 0, p)
    {
      BagMember(entries[i].listing, modelsDir + [entries[i].name], 0, p);
    }
  }

  ghost predicate OwnsPartial(partials: multiset<Path>, dir: Path) {
    exists p :: p in partials && IsUnder(p, dir)
  }

  lemma OwnerIsUnique(entries: seq<Entry>, modelsDir: Path, i: nat, j: nat, p: Path)
    requires i < |entries| && j < |entries| && DistinctNames(entries) && entries[j].Dir?
    requires IsUnder(p, modelsDir + [entries[i].name])
    requires p in Bag(entries[j].listing, modelsDir + [entries[j].name], 0)
    ensures i == j
  {
    var a, b := modelsDir + [entries[i].name], modelsDir + [entries[j].name];
    BagMember(entries[j].listing, b, 0, p);
    assert p[|modelsDir|] == p[..|a|][|modelsDir|] == entries[i].name;
    assert p[|modelsDir|] == p[..|b|][|modelsDir|] == entries[j].name;
  }

  // With names distinct, the orphan list is the report's orphans together with the untracked
  // directories that own a reported partial download - and no directory is both.
  lemma OrphansAgree(entries: seq<Entry>, modelsDir: Path, tracked: seq<Path>, dir: Path)
    requires DistinctNames(entries)
    ensures var partials := UntrackedPartials(entries, modelsDir, tracked);
            && (dir in EmptyDirs(entries, modelsDir, tracked)
                <==> dir in UntrackedDirs(entries, modelsDir, tracked) && !OwnsPartial(partials, dir))
  {
    UntrackedMember(entries, modelsDir, tracked, dir);
    EmptyMember(entries, modelsDir, tracked, dir);
    var partials := UntrackedPartials(entries, modelsDir, tracked);
    if dir in UntrackedDirs(entries, modelsDir, tracked) {
      var i :| 0 <= i < |entries| && IsUntracked(entries[i], modelsDir, tracked)
               && dir == modelsDir + [entries[i].name];
      OwnBag(entries, modelsDir, tracked, i);
    }
  }

  lemma OwnBag(entries: seq<Entry>, modelsDir: Path, tracked: seq<Path>, i: nat)
    requires DistinctNames(entries) && i < |entries| && IsUntracked(entries[i], modelsDir, tracked)
    ensures var dir := modelsDir + [entries[i].name];
            OwnsPartial(UntrackedPartials(entries, modelsDir, tracked), dir)
            <==> Bag(entries[i].listing, dir, 0) != multiset{}
    ensures forall j :: 0 <= j < |entries| && modelsDir + [entries[j].name] == modelsDir + [entries[i].name] ==> j == i
  {
    var dir := modelsDir + [entries[i].name];
    var partials := UntrackedPartials(entries, modelsDir, tracked);
    var bag := Bag(entries[i].listing, dir, 0);
    if bag != multiset{} {
      var p :| p in bag;
      BagMember(entries[i].listing, dir, 0, p);
      PartialMember(entries, modelsDir, tracked, p);
      assert p in partials;
    }
    if OwnsPartial(partials, dir) {
      var p :| p in partials && IsUnder(p, dir);
      PartialMember(entries, modelsDir, tracked, p);
      var j :| 0 <= j < |entries| && IsUntracked(entries[j], modelsDir, tracked)
               && p in Bag(entries[j].listing, modelsDir + [entries[j].name], 0);
      OwnerIsUnique(entries, modelsDir, i, j, p);
    }
    forall j | 0 <= j < |entries| && modelsDir + [entries[j].name] == dir ensures j == i {
      assert (modelsDir + [entries[j].name])[|modelsDir|] == entries[j].name;
      assert dir[|modelsDir|] == entries[i].name;
    }
  }
}
