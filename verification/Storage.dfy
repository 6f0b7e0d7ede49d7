// The storage walker of crates/hivebear-registry/src/storage.rs over a directory tree.
module Storage {
  import opened PathOrder

  // A directory either cannot be read or lists its entries; an entry of unknown or other type is
  // skipped by every scan.
  datatype Listing = Unreadable | Readable(entries: seq<Entry>)
  datatype Entry = File(name: string) | Dir(name: string, listing: Listing) | Skipped(name: string)

  const MAX_DEPTH := 3
  const PARTIAL_SUFFIX := ".partial"

  predicate EndsWith(s: string, suffix: string) {
    |suffix| <= |s| && s[|s| - |suffix|..] == suffix
  }

  predicate IsHidden(name: string) {
    name != "" && name[0] == '.'
  }

  predicate IsPartialName(name: string) {
    EndsWith(name, PARTIAL_SUFFIX)
  }

  // ---------------------------------------------------------------- the recursive definition

  // Partial files below a directory: each as often as the tree holds it.
  function Bag(listing: Listing, path: Path, depth: nat): multiset<Path>
    decreases listing, 1
  {
    match listing
    case Unreadable => multiset{}
    case Readable(entries) => BagOf(entries, path, depth)
  }

  function BagOf(entries: seq<Entry>, path: Path, depth: nat): multiset<Path>
    decreases entries, 0
  {
    if entries == [] then multiset{}
    else BagOf(entries[..|entries| - 1], path, depth) + EntryBag(entries[|entries| - 1], path, depth)
  }

  function EntryBag(e: Entry, path: Path, depth: nat): multiset<Path>
    decreases e, 0
  {
    match e
    case File(name) => if IsPartialName(name) then multiset{path + [name]} else multiset{}
    case Dir(name, listing) =>
      if depth < MAX_DEPTH && !IsHidden(name) then Bag(listing, path + [name], depth + 1) else multiset{}
    case Skipped(_) => multiset{}
  }

  // ---------------------------------------------------------------- the worklist

  // A directory waiting to be read.
  datatype Task = Task(path: Path, listing: Listing, depth: nat)

  function TreeSize(listing: Listing): nat
    decreases listing, 1
  {
    match listing
    case Unreadable => 1
    case Readable(entries) => 1 + EntriesSize(entries)
  }

  function EntriesSize(entries: seq<Entry>): nat
    decreases entries, 0
  {
    if entries == [] then 0 else EntriesSize(entries[..|entries| - 1]) + EntrySize(entries[|entries| - 1])
  }

  function EntrySize(e: Entry): nat
    decreases e, 0
  {
    if e.Dir? then TreeSize(e.listing) else 0
  }

  function StackSize(stack: seq<Task>): nat {
    if stack == [] then 0 else StackSize(stack[..|stack| - 1]) + TreeSize(stack[|stack| - 1].listing)
  }

  function StackBag(stack: seq<Task>): multiset<Path> {
    if stack == [] then multiset{}
    else
      var top := stack[|stack| - 1];
      StackBag(stack[..|stack| - 1]) + Bag(top.listing, top.path, top.depth)
  }

  lemma Push(stack: seq<Task>, task: Task)
    ensures StackSize(stack + [task]) == StackSize(stack) + TreeSize(task.listing)
    ensures StackBag(stack + [task]) == StackBag(stack) + Bag(task.listing, task.path, task.depth)
  {
    var all := stack + [task];
    assert all[..|all| - 1] == stack;
  }

  lemma OneMoreEntry(entries: seq<Entry>, i: nat, path: Path, depth: nat)
    requires i < |entries|
    ensures BagOf(entries[..i + 1], path, depth) == BagOf(entries[..i], path, depth) + EntryBag(entries[i], path, depth)
    ensures EntriesSize(entries[..i + 1]) == EntriesSize(entries[..i]) + EntrySize(entries[i])
  {
    assert entries[..i + 1][..i] == entries[..i];
  }

  // One directory's entries: subdirectories go on the stack, partial files are found.
  method ReadEntries(task: Task, entries: seq<Entry>, stack0: seq<Task>, found0: seq<Path>)
    returns (stack: seq<Task>, found: seq<Path>)
    ensures multiset(found) + StackBag(stack)
            == multiset(found0) + StackBag(stack0) + BagOf(entries, task.path, task.depth)
    ensures StackSize(stack) <= StackSize(stack0) + EntriesSize(entries)
  {
    hide StackBag, StackSize, BagOf, EntriesSize, Bag, TreeSize;
    stack, found := stack0, found0;
    NoEntries(entries, task.path, task.depth);
    var i := 0;
    while i < |entries|
      invariant i <= |entries|
      invariant multiset(found) + StackBag(stack)
                == multiset(found0) + StackBag(stack0) + BagOf(entries[..i], task.path, task.depth)
      invariant StackSize(stack) <= StackSize(stack0) + EntriesSize(entries[..i])
    {
      OneMoreEntry(entries, i, task.path, task.depth);
      ghost var bag := EntryBag(entries[i], task.path, task.depth);
      ghost var found1, stack1 := found, stack;
      match entries[i] {
        case Dir(name, listing) =>
          if task.depth < MAX_DEPTH && !IsHidden(name) {
            var next := Task(task.path + [name], listing, task.depth + 1);
            Push(stack, next);
            stack := stack + [next];
          }
        case File(name) =>
          if IsPartialName(name) {
            found := found + [task.path + [name]];
          }
        case Skipped(_) =>
      }
      assert multiset(found) + StackBag(stack) == multiset(found1) + StackBag(stack1) + bag;
      i := i + 1;
    }
    assert entries[..i] == entries;
  }

  lemma NoEntries(entries: seq<Entry>, path: Path, depth: nat)
    ensures BagOf(entries[..0], path, depth) == multiset{} && EntriesSize(entries[..0]) == 0
  {
    assert entries[..0] == [];
  }

  // find_partial_files: terminates, and returns the files of the recursive definition, sorted.
  method FindPartialFiles(dir: Path, listing: Listing) returns (found: seq<Path>)
    ensures Sorted(found) && multiset(found) == Bag(listing, dir, 0)
  {
    found := [];
    var start := Task(dir, listing, 0);
    var stack := [start];
    Push([], start);
    assert [] + [start] == stack;
    while stack != []
      invariant multiset(found) + StackBag(stack) == Bag(listing, dir, 0)
      decreases StackSize(stack)
    {
      var task := stack[|stack| - 1];
      stack := stack[..|stack| - 1];
      if task.listing.Readable? {
        stack, found := ReadEntries(task, task.listing.entries, stack, found);
      }
    }
    found := Sort(found);
  }
}
