/**
  Child selection (`get_sorted_entries`): the entries of one directory whose
  size is strictly above the threshold, largest first, ties in listing order.
*/
module Entries {
  import opened Wrappers
  import opened FileTree
  import opened SizeAggregator

  /** One kept entry of a listing, as `FileInfo(path, size, is_dir)`. */
  datatype Info = Info(node: Node, size: nat, isDir: bool)

  /**
    What the listing loop learns about one entry: a directory is sized by a
    walk, a file by `stat`; `None` when `stat` raises and the entry is skipped.
  */
  function Measure(n: Node): Option<Info>
  {
    match n
    case Dir(_, _) => Some(Info(n, DirSize(n), true))
    case File(_, s) => Some(Info(n, s, false))
    case Unreadable(_) => None
  }

  /** An entry is kept when it could be sized and its size exceeds the threshold. */
  predicate Passes(n: Node, threshold: nat)
  {
    Measure(n).Some? && Measure(n).value.size > threshold
  }

  /** The list built by the loop of `get_sorted_entries`, in listing order. */
  function Kept(ns: seq<Node>, threshold: nat): seq<Info>
  {
    if ns == [] then []
    else
      var last := ns[|ns| - 1];
      Kept(ns[..|ns| - 1], threshold) + (if Passes(last, threshold) then [Measure(last).value] else [])
  }

  function SumSizes(es: seq<Info>): nat
  {
    if es == [] then 0 else es[0].size + SumSizes(es[1..])
  }

  /** Entries whose size is exactly `k`, in order. */
  function WithSize(es: seq<Info>, k: nat): seq<Info>
  {
    if es == [] then []
    else (if es[0].size == k then [es[0]] else []) + WithSize(es[1..], k)
  }

  ghost predicate Descending(es: seq<Info>)
  {
    forall i, j :: 0 <= i < j < |es| ==> es[i].size >= es[j].size
  }

  /**
    Inserts `x` in front of the first entry that is not larger than it, so
    that it stays ahead of the equal-sized entries that followed it.
  */
  function Insert(x: Info, r: seq<Info>): seq<Info>
  {
    if r == [] || r[0].size <= x.size then [x] + r else [r[0]] + Insert(x, r[1..])
  }

  /** `sorted(entries, key=size, reverse=True)`: a stable sort, largest first. */
  function SortBySize(es: seq<Info>): seq<Info>
  {
    if es == [] then [] else Insert(es[0], SortBySize(es[1..]))
  }

  lemma {:induction false} KeptSound(ns: seq<Node>, threshold: nat)
    ensures forall e :: e in Kept(ns, threshold) ==>
      e.node in ns && Passes(e.node, threshold) && Measure(e.node) == Some(e)
  {
    if ns != [] {
      var init := ns[..|ns| - 1];
      KeptSound(init, threshold);
      forall e | e in Kept(ns, threshold)
        ensures e.node in ns && Passes(e.node, threshold) && Measure(e.node) == Some(e)
      {
        if e in Kept(init, threshold) {
          assert e.node in init;
        }
      }
    }
  }

  /** A child that passes is kept exactly as many times as it is listed. */
  lemma {:induction false} KeptCount(ns: seq<Node>, threshold: nat, x: Node)
    requires Passes(x, threshold)
    ensures multiset(Kept(ns, threshold))[Measure(x).value] == multiset(ns)[x]
  {
    if ns != [] {
      var init := ns[..|ns| - 1];
      assert ns == init + [ns[|ns| - 1]];
      KeptCount(init, threshold, x);
    }
  }

  lemma {:induction false} KeptSizeBounded(ns: seq<Node>, threshold: nat)
    ensures SumSizes(Kept(ns, threshold)) <= SizeAll(ns)
  {
    if ns != [] {
      var init := ns[..|ns| - 1];
      var last := ns[|ns| - 1];
      assert ns == init + [last];
      KeptSizeBounded(init, threshold);
      SizeAllAppend(init, [last]);
      SumSizesAppend(Kept(init, threshold), if Passes(last, threshold) then [Measure(last).value] else []);
      assert SizeAll([last]) == Size(last);
    }
  }

  lemma {:induction false} SumSizesAppend(a: seq<Info>, b: seq<Info>)
    ensures SumSizes(a + b) == SumSizes(a) + SumSizes(b)
  {
    if a != [] {
      assert (a + b)[0] == a[0] && (a + b)[1..] == a[1..] + b;
      SumSizesAppend(a[1..], b);
    } else {
      assert a + b == b;
    }
  }

  lemma {:induction false} InsertPermutes(x: Info, r: seq<Info>)
    ensures multiset(Insert(x, r)) == multiset(r) + multiset{x}
  {
    if r != [] && r[0].size > x.size {
      InsertPermutes(x, r[1..]);
      assert r == [r[0]] + r[1..];
    }
  }

  lemma {:induction false} InsertSum(x: Info, r: seq<Info>)
    ensures SumSizes(Insert(x, r)) == x.size + SumSizes(r)
  {
    if r == [] || r[0].size <= x.size {
      assert ([x] + r)[1..] == r;
    } else {
      InsertSum(x, r[1..]);
      assert ([r[0]] + Insert(x, r[1..]))[1..] == Insert(x, r[1..]);
    }
  }

  /** Insertion keeps `x` ahead of the entries of its size that follow it. */
  lemma {:induction false} InsertWithSize(x: Info, r: seq<Info>, k: nat)
    ensures WithSize(Insert(x, r), k) == (if x.size == k then [x] else []) + WithSize(r, k)
  {
    var own := if x.size == k then [x] else [];
    if r == [] || r[0].size <= x.size {
      assert ([x] + r)[1..] == r;
    } else {
      var s := Insert(x, r);
      var head := if r[0].size == k then [r[0]] else [];
      InsertWithSize(x, r[1..], k);
      assert s[0] == r[0] && s[1..] == Insert(x, r[1..]);
      assert WithSize(s, k) == head + (own + WithSize(r[1..], k));
      assert WithSize(r, k) == head + WithSize(r[1..], k);
      if x.size == k {
        assert head == [];
        assert WithSize(s, k) == own + WithSize(r[1..], k);
      } else {
        assert own == [];
      }
    }
  }

  lemma {:induction false} InsertDescending(x: Info, r: seq<Info>)
    requires Descending(r)
    ensures Descending(Insert(x, r))
  {
    if r == [] || r[0].size <= x.size {
    } else {
      InsertDescending(x, r[1..]);
      InsertPermutes(x, r[1..]);
      var s := Insert(x, r);
      forall i, j | 0 <= i < j < |s| ensures s[i].size >= s[j].size {
        if i == 0 {
          assert s[j] in multiset(Insert(x, r[1..]));
        }
      }
    }
  }

  lemma {:induction false} SortDescending(es: seq<Info>)
    ensures Descending(SortBySize(es))
  {
    if es != [] {
      SortDescending(es[1..]);
      InsertDescending(es[0], SortBySize(es[1..]));
    }
  }

  lemma {:induction false} SortPermutes(es: seq<Info>)
    ensures multiset(SortBySize(es)) == multiset(es)
  {
    if es != [] {
      SortPermutes(es[1..]);
      InsertPermutes(es[0], SortBySize(es[1..]));
      assert es == [es[0]] + es[1..];
    }
  }

  lemma {:induction false} SortSum(es: seq<Info>)
    ensures SumSizes(SortBySize(es)) == SumSizes(es)
  {
    if es != [] {
      SortSum(es[1..]);
      InsertSum(es[0], SortBySize(es[1..]));
    }
  }

  /** The sort is stable: the entries of each size keep their relative order. */
  lemma {:induction false} SortStable(es: seq<Info>, k: nat)
    ensures WithSize(SortBySize(es), k) == WithSize(es, k)
  {
    if es != [] {
      SortStable(es[1..], k);
      InsertWithSize(es[0], SortBySize(es[1..]), k);
    }
  }

  /** The result of `get_sorted_entries`: the kept entries, stably sorted by size. */
  function SortedEntries(ns: seq<Node>, threshold: nat): (r: seq<Info>)
    ensures forall e :: e in r ==> e.node in ns
  {
    var r := SortBySize(Kept(ns, threshold));
    SortedEntriesSpec(ns, threshold);
    r
  }

  /**
    What `get_sorted_entries` returns: exactly the children that pass the
    threshold, each as often as it is listed, measured as the loop measures
    them; non-increasing by size; equal sizes in listing order; and together
    no larger than the directory.
  */
  lemma SortedEntriesSpec(ns: seq<Node>, threshold: nat)
    ensures var r := SortBySize(Kept(ns, threshold));
      && Descending(r)
      && (forall e :: e in r ==> e.node in ns && Passes(e.node, threshold) && Measure(e.node) == Some(e))
      && (forall x :: Passes(x, threshold) ==> multiset(r)[Measure(x).value] == multiset(ns)[x])
      && (forall k :: WithSize(r, k) == WithSize(Kept(ns, threshold), k))
      && SumSizes(r) <= SizeAll(ns)
  {
    var kept := Kept(ns, threshold);
    var r := SortBySize(kept);
    KeptSound(ns, threshold);
    SortDescending(kept);
    SortPermutes(kept);
    SortSum(kept);
    KeptSizeBounded(ns, threshold);
    forall k ensures WithSize(r, k) == WithSize(kept, k) {
      SortStable(kept, k);
    }
    forall x | Passes(x, threshold) ensures multiset(r)[Measure(x).value] == multiset(ns)[x] {
      KeptCount(ns, threshold, x);
    }
    forall e | e in r ensures e in kept {
      assert e in multiset(r);
    }
  }

  /**
    `get_sorted_entries`: one pass over the listing that sizes each entry and
    keeps those above the threshold, then the stable sort.
  */
  method GetSortedEntries(children: seq<Node>, threshold: nat) returns (entries: seq<Info>)
    ensures entries == SortedEntries(children, threshold)
  {
    var kept: seq<Info> := [];
    var i := 0;
    while i < |children|
      invariant 0 <= i <= |children|
      invariant kept == Kept(children[..i], threshold)
    {
      var child := children[i];
      assert children[..i + 1][..i] == children[..i];
      match child {
        case Dir(_, _) =>
          var size := GetDirSize(child);
          if size > threshold {
            kept := kept + [Info(child, size, true)];
          }
        case File(_, s) =>
          if s > threshold {
            kept := kept + [Info(child, s, false)];
          }
        case Unreadable(_) =>
      }
      i := i + 1;
    }
    assert children[..|children|] == children;
    entries := SortBySize(kept);
  }
}
