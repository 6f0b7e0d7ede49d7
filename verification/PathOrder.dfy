// Paths as component lists, their order, and sorting.
module PathOrder {
  type Path = seq<string>

  // Lexicographic order of characters; on valid UTF-8 this is the order of the bytes.
  predicate StringLe(a: string, b: string) {
    a == "" || (b != "" && (a[0] < b[0] || (a[0] == b[0] && StringLe(a[1..], b[1..]))))
  }

  predicate PathLe(a: Path, b: Path) {
    a == [] || (b != [] && (if a[0] == b[0] then PathLe(a[1..], b[1..]) else StringLe(a[0], b[0])))
  }

  // a is a prefix of b, or smaller at the first character in which they differ.
  lemma {:induction false} StringLeIff(a: string, b: string)
    ensures StringLe(a, b)
            <==> exists k: nat :: k <= |a| && k <= |b| && a[..k] == b[..k] && (k == |a| || (k < |b| && a[k] < b[k]))
  {
    if a == "" {
      assert a[..0] == b[..0];
    } else if b != "" {
      StringLeIff(a[1..], b[1..]);
      if a[0] == b[0] {
        if k: nat :| && k <= |a[1..]| && k <= |b[1..]| && a[1..][..k] == b[1..][..k]
                     && (k == |a[1..]| || (k < |b[1..]| && a[1..][k] < b[1..][k])) {
          assert a[..k + 1] == [a[0]] + a[1..][..k] && b[..k + 1] == [b[0]] + b[1..][..k];
        }
        if k: nat :| k <= |a| && k <= |b| && a[..k] == b[..k] && (k == |a| || (k < |b| && a[k] < b[k])) {
          assert k > 0;
          assert a[1..][..k - 1] == a[..k][1..] && b[1..][..k - 1] == b[..k][1..];
        }
      } else {
        assert a[..0] == b[..0];
        assert forall k: nat :: 0 < k <= |a| && k <= |b| ==> a[..k][0] != b[..k][0];
      }
    }
  }

  // The same for paths, component by component.
  lemma {:induction false} PathLeIff(a: Path, b: Path)
    ensures PathLe(a, b)
            <==> exists k: nat :: && k <= |a| && k <= |b| && a[..k] == b[..k]
                                  && (k == |a| || (k < |b| && a[k] != b[k] && StringLe(a[k], b[k])))
  {
    if a == [] {
      assert a[..0] == b[..0];
    } else if b != [] {
      PathLeIff(a[1..], b[1..]);
      if a[0] == b[0] {
        if k: nat :| && k <= |a[1..]| && k <= |b[1..]| && a[1..][..k] == b[1..][..k]
                     && (k == |a[1..]| || (k < |b[1..]| && a[1..][k] != b[1..][k] && StringLe(a[1..][k], b[1..][k]))) {
          assert a[..k + 1] == [a[0]] + a[1..][..k] && b[..k + 1] == [b[0]] + b[1..][..k];
        }
        if k: nat :| && k <= |a| && k <= |b| && a[..k] == b[..k]
                     && (k == |a| || (k < |b| && a[k] != b[k] && StringLe(a[k], b[k]))) {
          assert k > 0;
          assert a[1..][..k - 1] == a[..k][1..] && b[1..][..k - 1] == b[..k][1..];
        }
      } else {
        assert a[..0] == b[..0];
        assert forall k: nat :: 0 < k <= |a| && k <= |b| ==> a[..k][0] != b[..k][0];
      }
    }
  }

  lemma StringOrder(a: string, b: string)
    ensures StringLe(a, b) || StringLe(b, a)
    ensures StringLe(a, b) && StringLe(b, a) ==> a == b
  {
    if a != "" && b != "" && a[0] == b[0] {
      StringOrder(a[1..], b[1..]);
      assert a == [a[0]] + a[1..] && b == [b[0]] + b[1..];
    }
  }

  lemma StringTransitive(a: string, b: string, c: string)
    requires StringLe(a, b) && StringLe(b, c)
    ensures StringLe(a, c)
  {
    if a != "" && a[0] == b[0] == c[0] {
      StringTransitive(a[1..], b[1..], c[1..]);
    }
  }

  lemma PathTotal(a: Path, b: Path)
    ensures PathLe(a, b) || PathLe(b, a)
  {
    if a != [] && b != [] {
      StringOrder(a[0], b[0]);
      if a[0] == b[0] {
        PathTotal(a[1..], b[1..]);
      }
    }
  }

  lemma PathTransitive(a: Path, b: Path, c: Path)
    requires PathLe(a, b) && PathLe(b, c)
    ensures PathLe(a, c)
  {
    if a != [] {
      if a[0] == b[0] == c[0] {
        PathTransitive(a[1..], b[1..], c[1..]);
      } else {
        StringOrder(a[0], b[0]);
        StringOrder(b[0], c[0]);
        StringTransitive(a[0], b[0], c[0]);
        StringOrder(a[0], c[0]);
      }
    }
  }

  ghost predicate Sorted(s: seq<Path>) {
    forall i, j :: 0 <= i < j < |s| ==> PathLe(s[i], s[j])
  }

  // Position of p in a sorted list: everything before it is less or equal, nothing behind it is less.
  function InsertAt(s: seq<Path>, p: Path): (i: nat)
    ensures i <= |s|
    ensures forall k :: 0 <= k < i ==> PathLe(s[k], p)
    ensures i < |s| ==> !PathLe(s[i], p)
  {
    if s == [] || !PathLe(s[0], p) then 0 else 1 + InsertAt(s[1..], p)
  }

  lemma InsertKeepsSorted(s: seq<Path>, p: Path)
    requires Sorted(s)
    ensures Sorted(Inserted(s, p))
  {
    var n := InsertAt(s, p);
    var t := Inserted(s, p);
    forall k | n <= k < |s| ensures PathLe(p, s[k]) {
      PathTotal(p, s[n]);
      if n < k {
        PathTransitive(p, s[n], s[k]);
      }
    }
    forall i, j | 0 <= i < j < |t| ensures PathLe(t[i], t[j]) {
      assert t[i] == if i < n then s[i] else if i == n then p else s[i - 1];
      assert t[j] == if j < n then s[j] else if j == n then p else s[j - 1];
    }
  }

  function Inserted(s: seq<Path>, p: Path): seq<Path> {
    s[..InsertAt(s, p)] + [p] + s[InsertAt(s, p)..]
  }

  lemma InsertedBag(s: seq<Path>, p: Path)
    ensures multiset(Inserted(s, p)) == multiset(s) + multiset{p}
  {
    assert s == s[..InsertAt(s, p)] + s[InsertAt(s, p)..];
  }

  // Vec::sort: a sorted permutation.
  method Sort(s: seq<Path>) returns (sorted: seq<Path>)
    ensures Sorted(sorted) && multiset(sorted) == multiset(s)
  {
    hide Inserted, InsertAt, Sorted;
    sorted := [];
    EmptyIsSorted();
    var i := 0;
    while i < |s|
      invariant i <= |s| && Sorted(sorted) && multiset(sorted) == multiset(s[..i])
    {
      InsertKeepsSorted(sorted, s[i]);
      InsertedBag(sorted, s[i]);
      assert s[..i + 1] == s[..i] + [s[i]];
      sorted := Inserted(sorted, s[i]);
      i := i + 1;
    }
    assert s[..i] == s;
  }

  lemma EmptyIsSorted()
    ensures Sorted([])
  {
  }
}
