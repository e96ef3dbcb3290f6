/** Optional values, used for the results that the source leaves as `None`. */
module Wrappers {
  datatype Option<T> = None | Some(value: T)
}

/**
  The filesystem as the disk-usage tree sees it, with listing and sizing
  already done: every entry is a regular file with a byte size, a directory
  with its listing, or an entry whose size or listing could not be obtained.
*/
module FileTree {
  datatype Node =
    | File(name: string, size: nat)
    | Dir(name: string, children: seq<Node>)
      /** A file whose `stat` fails or a directory that cannot be listed. */
    | Unreadable(name: string)

  /** Number of nodes in a subtree; only used as a termination measure. */
  function Count(n: Node): nat
  {
    match n
    case Dir(_, kids) => 1 + CountAll(kids)
    case _ => 1
  }

  function CountAll(ns: seq<Node>): nat
  {
    if ns == [] then 0 else Count(ns[0]) + CountAll(ns[1..])
  }

  lemma {:induction false} CountAllAppend(a: seq<Node>, b: seq<Node>)
    ensures CountAll(a + b) == CountAll(a) + CountAll(b)
  {
    if a != [] {
      assert (a + b)[0] == a[0] && (a + b)[1..] == a[1..] + b;
      CountAllAppend(a[1..], b);
    } else {
      assert a + b == b;
    }
  }
}

/**
  The size aggregator: the aggregate size of a directory is the sum of the
  sizes of the regular files below it, an unreadable entry counting 0.
*/
module SizeAggregator {
  import opened FileTree

  /** Bytes a node contributes to the directory that contains it. */
  function Size(n: Node): nat
  {
    match n
    case File(_, s) => s
    case Dir(_, kids) => SizeAll(kids)
    case Unreadable(_) => 0
  }

  function SizeAll(ns: seq<Node>): nat
  {
    if ns == [] then 0 else Size(ns[0]) + SizeAll(ns[1..])
  }

  /**
    What `get_dir_size` returns for a path: a walk of a path that is not a
    directory yields nothing, so only a directory has a non-zero total.
  */
  function DirSize(n: Node): nat
  {
    if n.Dir? then Size(n) else 0
  }

  /** Reference definition: the sizes of all regular files of a subtree, in walk order. */
  function FileSizes(n: Node): seq<nat>
  {
    match n
    case File(_, s) => [s]
    case Dir(_, kids) => FileSizesAll(kids)
    case Unreadable(_) => []
  }

  function FileSizesAll(ns: seq<Node>): seq<nat>
  {
    if ns == [] then [] else FileSizes(ns[0]) + FileSizesAll(ns[1..])
  }

  function Sum(xs: seq<nat>): nat
  {
    if xs == [] then 0 else xs[0] + Sum(xs[1..])
  }

  lemma {:induction false} SumAppend(a: seq<nat>, b: seq<nat>)
    ensures Sum(a + b) == Sum(a) + Sum(b)
  {
    if a != [] {
      assert (a + b)[0] == a[0] && (a + b)[1..] == a[1..] + b;
      SumAppend(a[1..], b);
    } else {
      assert a + b == b;
    }
  }

  lemma {:induction false} SizeAllAppend(a: seq<Node>, b: seq<Node>)
    ensures SizeAll(a + b) == SizeAll(a) + SizeAll(b)
  {
    if a != [] {
      assert (a + b)[0] == a[0] && (a + b)[1..] == a[1..] + b;
      SizeAllAppend(a[1..], b);
    } else {
      assert a + b == b;
    }
  }

  /** The aggregate size is the sum of the file sizes of the subtree. */
  lemma {:induction false} SizeIsSumOfFiles(n: Node)
    ensures Size(n) == Sum(FileSizes(n))
    decreases n, 1
  {
    match n
    case File(_, s) =>
      assert Sum([s]) == s + Sum([]);
    case Dir(_, kids) =>
      SizeAllIsSumOfFiles(kids);
    case Unreadable(_) =>
  }

  lemma {:induction false} SizeAllIsSumOfFiles(ns: seq<Node>)
    ensures SizeAll(ns) == Sum(FileSizesAll(ns))
    decreases ns, 0
  {
    if ns != [] {
      SizeIsSumOfFiles(ns[0]);
      SizeAllIsSumOfFiles(ns[1..]);
      SumAppend(FileSizes(ns[0]), FileSizesAll(ns[1..]));
    }
  }

  /** A directory's size bounds the size of each entry in it. */
  lemma {:induction false} ChildSizeBounded(ns: seq<Node>, i: nat)
    requires i < |ns|
    ensures Size(ns[i]) <= SizeAll(ns)
  {
    if i > 0 {
      ChildSizeBounded(ns[1..], i - 1);
    }
  }

  /**
    A subtree that turns out to be unreadable loses exactly its own bytes:
    the siblings' contributions are unaffected.
  */
  lemma {:induction false} UnreadableChildLosesOnlyItself(ns: seq<Node>, i: nat, name: string)
    requires i < |ns|
    ensures SizeAll(ns[i := Unreadable(name)]) == SizeAll(ns) - Size(ns[i])
  {
    if i == 0 {
      assert ns[i := Unreadable(name)][1..] == ns[1..];
    } else {
      assert ns[i := Unreadable(name)][1..] == ns[1..][i - 1 := Unreadable(name)];
      UnreadableChildLosesOnlyItself(ns[1..], i - 1, name);
    }
  }

  /**
    `get_dir_size`: a walk over the directories of the tree (a stack of
    directories still to visit), adding up the size of every file entry of
    each directory visited; an entry that cannot be sized or listed adds 0.
  */
  method GetDirSize(root: Node) returns (total: nat)
    ensures total == DirSize(root)
  {
    total := 0;
    var pending: seq<Node> := if root.Dir? then [root] else [];
    while pending != []
      invariant forall j :: 0 <= j < |pending| ==> pending[j].Dir?
      invariant total + SizeAll(pending) == DirSize(root)
      decreases CountAll(pending)
    {
      var dir := pending[|pending| - 1];
      ghost var visiting := pending;
      pending := pending[..|pending| - 1];
      assert pending + [dir] == visiting;
      SizeAllAppend(pending, [dir]);
      CountAllAppend(pending, [dir]);
      ghost var before := CountAll(pending) + Count(dir);
      var kids := dir.children;
      var i := 0;
      while i < |kids|
        invariant 0 <= i <= |kids|
        invariant forall j :: 0 <= j < |pending| ==> pending[j].Dir?
        invariant total + SizeAll(kids[i..]) + SizeAll(pending) == DirSize(root)
        invariant CountAll(pending) + CountAll(kids[i..]) < before
      {
        assert kids[i..][1..] == kids[i + 1..];
        match kids[i] {
          case File(_, s) =>
            total := total + s;
          case Dir(_, _) =>
            SizeAllAppend(pending, [kids[i]]);
            CountAllAppend(pending, [kids[i]]);
            pending := pending + [kids[i]];
          case Unreadable(_) =>
        }
        i := i + 1;
      }
    }
  }
}
