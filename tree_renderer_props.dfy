/**
  What the printed tree promises: pruning by threshold, the depth bound,
  percentages within bounds, the sibling listing with its glyphs and
  prefixes, and the connector rule.
*/
module TreeRendererProps {
  import opened Wrappers
  import opened FileTree
  import opened SizeAggregator
  import opened Entries
  import opened TreeRenderer

  /**
    A call of `print_tree` as the program makes it: the prefix holds four
    characters per level, and below the root the parent is a non-empty
    directory at least as large as this node.
  */
  predicate CallOk(n: Node, ctx: Context)
  {
    && |ctx.prefix| == 4 * ctx.depth
    && (ctx.depth > 0 ==> ctx.parentSize > 0 && DirSize(n) <= ctx.parentSize)
  }

  /**
    A printed line whose entries sit at depth `depth` or deeper and whose
    connectors belong to depth `connDepth` or deeper. An entry is above the
    threshold, within the depth limit, has a percentage in (0, 100] exactly
    when it has a branch glyph, and only the root line has none.
  */
  predicate LineOk(l: Line, cfg: Config, depth: nat, connDepth: nat)
  {
    match l
    case Entry(prefix, branch, _, size, percent) =>
      && size > cfg.threshold
      && 4 * depth <= |prefix| && |prefix| % 4 == 0
      && (cfg.maxDepth.Some? ==> |prefix| <= 4 * cfg.maxDepth.value)
      && (percent.Some? ==> 0.0 < percent.value <= 100.0)
      && (percent.None? <==> branch == "")
      && (branch == "" ==> prefix == "")
    case Connector(text) =>
      4 * connDepth + 1 <= |text| && |text| % 4 == 1
  }

  lemma PercentBounds(size: nat, parent: nat)
    requires 0 < size <= parent
    ensures 0.0 < Percent(size, parent) <= 100.0
  {
    var q := size as real / parent as real;
    assert q * parent as real == size as real;
  }

  /** A sized entry is measured at its aggregate size. */
  lemma MeasureIsSize(x: Node)
    requires Measure(x).Some?
    ensures Measure(x).value.size == Size(x)
  {
  }

  lemma MemberSizeBounded(ns: seq<Node>, x: Node)
    requires x in ns
    ensures Size(x) <= SizeAll(ns)
  {
    var j :| 0 <= j < |ns| && ns[j] == x;
    ChildSizeBounded(ns, j);
  }

  /** The kept entries of a directory, as `print_tree` receives them. */
  predicate KeptEntries(es: seq<Info>, cfg: Config, size: nat)
  {
    forall e :: e in es ==>
      Measure(e.node) == Some(e) && cfg.threshold < e.size <= size
  }

  lemma SortedEntriesKept(n: Node, cfg: Config)
    requires n.Dir?
    ensures KeptEntries(SortedEntries(n.children, cfg.threshold), cfg, DirSize(n))
  {
    SortedEntriesSpec(n.children, cfg.threshold);
    forall e | e in SortedEntries(n.children, cfg.threshold)
      ensures Measure(e.node) == Some(e) && cfg.threshold < e.size <= DirSize(n)
    {
      MeasureIsSize(e.node);
      MemberSizeBounded(n.children, e.node);
    }
  }

  lemma {:induction false} RenderLinesOk(n: Node, cfg: Config, ctx: Context)
    requires CallOk(n, ctx)
    ensures forall l :: l in Render(n, cfg, ctx) ==> LineOk(l, cfg, ctx.depth, ctx.depth)
    ensures forall j :: 1 <= j < |Render(n, cfg, ctx)| ==>
      LineOk(Render(n, cfg, ctx)[j], cfg, ctx.depth + 1, ctx.depth)
    decreases n, 2
  {
    if !BeyondLimit(cfg, ctx.depth) && DirSize(n) > cfg.threshold {
      var size := DirSize(n);
      var head := DirLine(n, ctx, size);
      if ctx.depth > 0 {
        PercentBounds(size, ctx.parentSize);
      }
      assert LineOk(head, cfg, ctx.depth, ctx.depth);
      if !AtLimit(cfg, ctx.depth) {
        var es := SortedEntries(n.children, cfg.threshold);
        SortedEntriesKept(n, cfg);
        RenderEntriesLinesOk(n, es, 0, cfg, ctx, size);
        var lines := Render(n, cfg, ctx);
        assert lines == [head] + RenderEntries(n, es, 0, cfg, ctx, size);
        forall j | 1 <= j < |lines| ensures LineOk(lines[j], cfg, ctx.depth + 1, ctx.depth) {
          assert lines[j] in RenderEntries(n, es, 0, cfg, ctx, size);
        }
      }
    }
  }

  lemma {:induction false} RenderEntriesLinesOk(parent: Node, es: seq<Info>, i: nat, cfg: Config, ctx: Context, size: nat)
    requires parent.Dir? && size > 0 && i <= |es|
    requires forall e :: e in es ==> e.node in parent.children
    requires KeptEntries(es, cfg, size)
    requires |ctx.prefix| == 4 * ctx.depth
    requires !BeyondLimit(cfg, ctx.depth) && !AtLimit(cfg, ctx.depth)
    ensures forall l :: l in RenderEntries(parent, es, i, cfg, ctx, size) ==>
      LineOk(l, cfg, ctx.depth + 1, ctx.depth)
    decreases parent, 1, |es| - i
  {
    if i < |es| {
      RenderEntriesCons(parent, es, i, cfg, ctx, size);
      RenderEntryLinesOk(parent, es[i], i == |es| - 1, cfg, ctx, size);
      RenderEntriesLinesOk(parent, es, i + 1, cfg, ctx, size);
    }
  }

  lemma {:induction false} RenderEntryLinesOk(parent: Node, e: Info, isLastEntry: bool, cfg: Config, ctx: Context, size: nat)
    requires parent.Dir? && size > 0 && e.node in parent.children
    requires Measure(e.node) == Some(e) && cfg.threshold < e.size <= size
    requires |ctx.prefix| == 4 * ctx.depth
    requires !BeyondLimit(cfg, ctx.depth) && !AtLimit(cfg, ctx.depth)
    ensures forall l :: l in RenderEntry(parent, e, isLastEntry, cfg, ctx, size) ==>
      LineOk(l, cfg, ctx.depth + 1, ctx.depth)
    decreases parent, 0, 0
  {
    var child := Context(ChildPrefix(ctx), isLastEntry, ctx.depth + 1, size);
    assert |child.prefix| == 4 * child.depth;
    RenderEntryParts(parent, e, isLastEntry, cfg, ctx, size);
    if e.isDir {
      RenderLinesOk(e.node, cfg, child);
    } else {
      PercentBounds(e.size, size);
      assert LineOk(FileLine(e, child), cfg, ctx.depth + 1, ctx.depth);
    }
  }

  /**
    Every line of the tree: no entry at or below the threshold, no entry
    deeper than `--depth` (an entry at depth d has a prefix of 4·d
    characters), every percentage in (0, 100], and only the root line
    without branch glyph and percentage.
  */
  lemma TreeLinesOk(root: Node, cfg: Config)
    ensures forall l :: l in Tree(root, cfg) && l.Entry? ==>
      && l.size > cfg.threshold
      && (cfg.maxDepth.Some? ==> |l.prefix| / 4 <= cfg.maxDepth.value)
      && (l.percent.Some? ==> 0.0 < l.percent.value <= 100.0)
      && (l.branch == "" <==> l.percent.None?)
      && (l.branch == "" ==> l == Tree(root, cfg)[0])
  {
    var ctx := Context("", true, 0, 0);
    RenderLinesOk(root, cfg, ctx);
    var lines := Tree(root, cfg);
    forall l | l in lines && l.Entry? && l.branch == "" ensures l == lines[0] {
      var j :| 0 <= j < |lines| && lines[j] == l;
    }
  }

  /** With `--depth 0` only the root line is printed, if the root is above the threshold. */
  lemma DepthZeroPrintsRootOnly(root: Node, threshold: nat)
    ensures Tree(root, Config(threshold, Some(0)))
      == if DirSize(root) > threshold then [Entry("", "", root.name + "/", DirSize(root), None)] else []
  {
  }

  /** Entry lines whose prefix is exactly `p`: the lines of one level of one directory. */
  function EntriesAt(lines: seq<Line>, p: string): seq<Line>
  {
    if lines == [] then []
    else (if lines[0].Entry? && lines[0].prefix == p then [lines[0]] else []) + EntriesAt(lines[1..], p)
  }

  lemma {:induction false} EntriesAtAppend(a: seq<Line>, b: seq<Line>, p: string)
    ensures EntriesAt(a + b, p) == EntriesAt(a, p) + EntriesAt(b, p)
  {
    if a == [] {
      assert a + b == b;
    } else {
      assert (a + b)[0] == a[0] && (a + b)[1..] == a[1..] + b;
      EntriesAtAppend(a[1..], b, p);
    }
  }

  lemma {:induction false} EntriesAtNone(lines: seq<Line>, p: string)
    requires forall l :: l in lines && l.Entry? ==> |l.prefix| != |p|
    ensures EntriesAt(lines, p) == []
  {
    if lines != [] {
      assert lines[0] in lines;
      assert forall l :: l in lines[1..] ==> l in lines;
      EntriesAtNone(lines[1..], p);
    }
  }

  /** The name column: a directory's name carries a trailing `/`. */
  function DisplayName(e: Info): string
  {
    if e.isDir then e.node.name + "/" else e.node.name
  }

  /** At its own prefix, a call shows only its own line: everything below is deeper. */
  lemma EntriesAtRender(n: Node, cfg: Config, ctx: Context)
    requires CallOk(n, ctx)
    ensures EntriesAt(Render(n, cfg, ctx), ctx.prefix)
      == if |Render(n, cfg, ctx)| > 0 then [Render(n, cfg, ctx)[0]] else []
  {
    var lines := Render(n, cfg, ctx);
    RenderLinesOk(n, cfg, ctx);
    if lines != [] {
      var rest := lines[1..];
      forall l | l in rest && l.Entry? ensures |l.prefix| != |ctx.prefix| {
        var j :| 0 <= j < |rest| && rest[j] == l;
        assert LineOk(lines[j + 1], cfg, ctx.depth + 1, ctx.depth);
      }
      EntriesAtNone(rest, ctx.prefix);
      assert lines == [lines[0]] + rest;
      EntriesAtAppend([lines[0]], rest, ctx.prefix);
      assert [lines[0]][1..] == [];
    }
  }

  /** A directory entry that passes shows exactly its own line at its prefix. */
  lemma EntriesAtShownDir(n: Node, cfg: Config, ctx: Context)
    requires CallOk(n, ctx) && ctx.depth > 0
    requires DirSize(n) > cfg.threshold && !BeyondLimit(cfg, ctx.depth)
    ensures EntriesAt(Render(n, cfg, ctx), ctx.prefix) == [DirLine(n, ctx, DirSize(n))]
  {
    EntriesAtRender(n, cfg, ctx);
    assert Render(n, cfg, ctx)[0] == DirLine(n, ctx, DirSize(n));
  }

  /** The loop from position `i`: turn `i`, then the rest. */
  lemma RenderEntriesCons(parent: Node, es: seq<Info>, i: nat, cfg: Config, ctx: Context, size: nat)
    requires parent.Dir? && size > 0 && i < |es|
    requires forall e :: e in es ==> e.node in parent.children
    ensures es[i] in es
    ensures RenderEntries(parent, es, i, cfg, ctx, size)
      == RenderEntry(parent, es[i], i == |es| - 1, cfg, ctx, size) + RenderEntries(parent, es, i + 1, cfg, ctx, size)
  {
  }

  /** The two parts of one turn of the loop: the entry's own lines, then the connector if any. */
  lemma RenderEntryParts(parent: Node, e: Info, isLastEntry: bool, cfg: Config, ctx: Context, size: nat)
    requires parent.Dir? && size > 0 && e.node in parent.children
    ensures var child := Context(ChildPrefix(ctx), isLastEntry, ctx.depth + 1, size);
      RenderEntry(parent, e, isLastEntry, cfg, ctx, size)
      == EntryBlock(parent, e, cfg, child)
         + (if isLastEntry && !ctx.isLast then [Connector(ctx.prefix + "│")] else [])
  {
  }

  /** What one turn of the loop shows at the child prefix: the entry's own line. */
  lemma EntriesAtRenderEntry(parent: Node, e: Info, isLastEntry: bool, cfg: Config, ctx: Context, size: nat)
    requires parent.Dir? && size > 0 && e.node in parent.children
    requires Measure(e.node) == Some(e) && cfg.threshold < e.size <= size
    requires |ctx.prefix| == 4 * ctx.depth
    requires !BeyondLimit(cfg, ctx.depth) && !AtLimit(cfg, ctx.depth)
    ensures EntriesAt(RenderEntry(parent, e, isLastEntry, cfg, ctx, size), ChildPrefix(ctx))
      == [Entry(ChildPrefix(ctx), Branch(isLastEntry), DisplayName(e), e.size, Some(Percent(e.size, size)))]
  {
    var q := ChildPrefix(ctx);
    var child := Context(q, isLastEntry, ctx.depth + 1, size);
    var conn: seq<Line> := if isLastEntry && !ctx.isLast then [Connector(ctx.prefix + "│")] else [];
    var block := EntryBlock(parent, e, cfg, child);
    RenderEntryParts(parent, e, isLastEntry, cfg, ctx, size);
    EntryBlockAt(parent, e, cfg, child);
    EntriesAtNone(conn, q);
    EntriesAtAppend(block, conn, q);
    assert EntriesAt(block, q) + EntriesAt(conn, q) == EntriesAt(block, q);
  }

  /** The lines of one kept entry show, at the entry's prefix, only the entry's own line. */
  lemma EntryBlockAt(parent: Node, e: Info, cfg: Config, child: Context)
    requires parent.Dir? && e.node in parent.children
    requires |child.prefix| == 4 * child.depth && child.depth > 0
    requires Measure(e.node) == Some(e) && cfg.threshold < e.size <= child.parentSize
    requires !BeyondLimit(cfg, child.depth)
    ensures EntriesAt(EntryBlock(parent, e, cfg, child), child.prefix)
      == [Entry(child.prefix, Branch(child.isLast), DisplayName(e), e.size, Some(Percent(e.size, child.parentSize)))]
  {
    if e.isDir {
      EntriesAtShownDir(e.node, cfg, child);
    } else {
      assert [FileLine(e, child)][1..] == [];
    }
  }

  /** The line of the `i`-th kept entry of a directory of aggregate size `size`. */
  function ChildLine(es: seq<Info>, i: nat, q: string, size: nat): Line
    requires i < |es| && size > 0
  {
    Entry(q, Branch(i == |es| - 1), DisplayName(es[i]), es[i].size, Some(Percent(es[i].size, size)))
  }

  /** The lines of the kept entries `es[i..]`, as `ListedChildren` describes them. */
  function ChildLines(es: seq<Info>, i: nat, q: string, size: nat): seq<Line>
    requires i <= |es| && size > 0
    decreases |es| - i
  {
    if i == |es| then [] else [ChildLine(es, i, q, size)] + ChildLines(es, i + 1, q, size)
  }

  lemma {:induction false} ChildLinesIndex(es: seq<Info>, i: nat, q: string, size: nat)
    requires i <= |es| && size > 0
    ensures |ChildLines(es, i, q, size)| == |es| - i
    ensures forall j :: i <= j < |es| ==> ChildLines(es, i, q, size)[j - i] == ChildLine(es, j, q, size)
    decreases |es| - i
  {
    if i < |es| {
      var rest := ChildLines(es, i + 1, q, size);
      var all := ChildLines(es, i, q, size);
      ChildLinesIndex(es, i + 1, q, size);
      assert all == [ChildLine(es, i, q, size)] + rest;
      forall j | i < j < |es| ensures all[j - i] == ChildLine(es, j, q, size) {
        assert all[j - i] == rest[j - (i + 1)];
      }
    }
  }

  lemma {:induction false} EntriesAtRenderEntries(parent: Node, es: seq<Info>, i: nat, cfg: Config, ctx: Context, size: nat)
    requires parent.Dir? && size > 0 && i <= |es|
    requires forall e :: e in es ==> e.node in parent.children
    requires KeptEntries(es, cfg, size)
    requires |ctx.prefix| == 4 * ctx.depth
    requires !BeyondLimit(cfg, ctx.depth) && !AtLimit(cfg, ctx.depth)
    ensures EntriesAt(RenderEntries(parent, es, i, cfg, ctx, size), ChildPrefix(ctx))
      == ChildLines(es, i, ChildPrefix(ctx), size)
    decreases |es| - i
  {
    if i < |es| {
      RenderEntriesCons(parent, es, i, cfg, ctx, size);
      EntriesAtRenderEntry(parent, es[i], i == |es| - 1, cfg, ctx, size);
      EntriesAtRenderEntries(parent, es, i + 1, cfg, ctx, size);
      EntriesAtAppend(RenderEntry(parent, es[i], i == |es| - 1, cfg, ctx, size),
                      RenderEntries(parent, es, i + 1, cfg, ctx, size), ChildPrefix(ctx));
    }
  }

  lemma ListedChildLines(n: Node, cfg: Config, ctx: Context)
    requires CallOk(n, ctx) && DirSize(n) > cfg.threshold
    requires !BeyondLimit(cfg, ctx.depth) && !AtLimit(cfg, ctx.depth)
    ensures n.Dir?
    ensures EntriesAt(Render(n, cfg, ctx), ChildPrefix(ctx))
      == ChildLines(SortedEntries(n.children, cfg.threshold), 0, ChildPrefix(ctx), DirSize(n))
  {
    var size := DirSize(n);
    var es := SortedEntries(n.children, cfg.threshold);
    var q := ChildPrefix(ctx);
    var head := DirLine(n, ctx, size);
    SortedEntriesKept(n, cfg);
    EntriesAtRenderEntries(n, es, 0, cfg, ctx, size);
    assert Render(n, cfg, ctx) == [head] + RenderEntries(n, es, 0, cfg, ctx, size);
    EntriesAtAppend([head], RenderEntries(n, es, 0, cfg, ctx, size), q);
    assert EntriesAt([head], q) == [] by {
      assert [head][1..] == [];
    }
  }

  /**
    The children listed under a directory that is printed and expanded: the
    lines at its child prefix (its own prefix extended by four spaces if it
    is the last sibling, by a bar and three spaces otherwise) are exactly
    its kept entries in sorted order, the last one with `└──` and every
    other with `├──`, each with its size and its percentage of this
    directory's aggregate size.
  */
  lemma ListedChildren(n: Node, cfg: Config, ctx: Context)
    requires CallOk(n, ctx) && DirSize(n) > cfg.threshold
    requires !BeyondLimit(cfg, ctx.depth) && !AtLimit(cfg, ctx.depth)
    ensures n.Dir?
    ensures var es := SortedEntries(n.children, cfg.threshold);
      var q := ctx.prefix + (if ctx.isLast then "    " else "│   ");
      var kids := EntriesAt(Render(n, cfg, ctx), q);
      && |kids| == |es|
      && forall i :: 0 <= i < |es| ==>
        kids[i] == Entry(q, if i == |es| - 1 then "└──" else "├──", DisplayName(es[i]), es[i].size,
                         Some(Percent(es[i].size, DirSize(n))))
  {
    var es := SortedEntries(n.children, cfg.threshold);
    var q := ChildPrefix(ctx);
    ListedChildLines(n, cfg, ctx);
    ChildLinesIndex(es, 0, q, DirSize(n));
    var kids := EntriesAt(Render(n, cfg, ctx), q);
    forall i | 0 <= i < |es|
      ensures kids[i] == Entry(q, if i == |es| - 1 then "└──" else "├──", DisplayName(es[i]), es[i].size,
                               Some(Percent(es[i].size, DirSize(n))))
    {
      assert kids[i] == ChildLines(es, 0, q, DirSize(n))[i - 0] == ChildLine(es, i, q, DirSize(n));
    }
  }

  /** The connector lines with text `t`, in order. */
  function ConnectorsAt(lines: seq<Line>, t: string): seq<Line>
  {
    if lines == [] then []
    else (if lines[0] == Connector(t) then [lines[0]] else []) + ConnectorsAt(lines[1..], t)
  }

  lemma {:induction false} ConnectorsAtAppend(a: seq<Line>, b: seq<Line>, t: string)
    ensures ConnectorsAt(a + b, t) == ConnectorsAt(a, t) + ConnectorsAt(b, t)
  {
    if a == [] {
      assert a + b == b;
    } else {
      assert (a + b)[0] == a[0] && (a + b)[1..] == a[1..] + b;
      ConnectorsAtAppend(a[1..], b, t);
    }
  }

  lemma {:induction false} ConnectorsAtNone(lines: seq<Line>, t: string)
    requires forall l :: l in lines && l.Connector? ==> |l.text| != |t|
    ensures ConnectorsAt(lines, t) == []
  {
    if lines != [] {
      assert lines[0] in lines;
      assert forall l :: l in lines[1..] ==> l in lines;
      ConnectorsAtNone(lines[1..], t);
    }
  }

  predicate EndsWith(lines: seq<Line>, l: Line)
  {
    |lines| > 0 && lines[|lines| - 1] == l
  }

  lemma EndsWithAppend(a: seq<Line>, b: seq<Line>, l: Line)
    requires EndsWith(b, l) || (EndsWith(a, l) && b == [])
    ensures EndsWith(a + b, l)
  {
    if b == [] {
      assert a + b == a;
    } else {
      assert (a + b)[|a + b| - 1] == b[|b| - 1];
    }
  }

  /** The lines of one kept entry hold no connector of its parent's level. */
  lemma EntryBlockConnectors(parent: Node, e: Info, cfg: Config, child: Context, t: string)
    requires parent.Dir? && e.node in parent.children
    requires |child.prefix| == 4 * child.depth && child.depth > 0 && |t| == 4 * child.depth - 3
    requires Measure(e.node) == Some(e) && 0 < e.size <= child.parentSize
    ensures ConnectorsAt(EntryBlock(parent, e, cfg, child), t) == []
  {
    if e.isDir {
      RenderLinesOk(e.node, cfg, child);
      ConnectorsAtNone(Render(e.node, cfg, child), t);
    } else {
      ConnectorsAtNone([FileLine(e, child)], t);
    }
  }

  /** One turn of the loop emits the connector of `ctx` only after the last entry. */
  lemma ConnectorsOfEntry(parent: Node, e: Info, isLastEntry: bool, cfg: Config, ctx: Context, size: nat)
    requires parent.Dir? && size > 0 && e.node in parent.children
    requires Measure(e.node) == Some(e) && cfg.threshold < e.size <= size
    requires |ctx.prefix| == 4 * ctx.depth
    requires !BeyondLimit(cfg, ctx.depth) && !AtLimit(cfg, ctx.depth)
    ensures var lines := RenderEntry(parent, e, isLastEntry, cfg, ctx, size);
      var t := ctx.prefix + "│";
      && ConnectorsAt(lines, t) == (if isLastEntry && !ctx.isLast then [Connector(t)] else [])
      && (isLastEntry && !ctx.isLast ==> EndsWith(lines, Connector(t)))
  {
    var t := ctx.prefix + "│";
    var child := Context(ChildPrefix(ctx), isLastEntry, ctx.depth + 1, size);
    var conn: seq<Line> := if isLastEntry && !ctx.isLast then [Connector(t)] else [];
    var block := EntryBlock(parent, e, cfg, child);
    RenderEntryParts(parent, e, isLastEntry, cfg, ctx, size);
    EntryBlockConnectors(parent, e, cfg, child, t);
    ConnectorsAtAppend(block, conn, t);
    if conn != [] {
      assert conn[1..] == [];
      EndsWithAppend(block, conn, Connector(t));
    }
  }

  lemma {:induction false} ConnectorsOfEntries(parent: Node, es: seq<Info>, i: nat, cfg: Config, ctx: Context, size: nat)
    requires parent.Dir? && size > 0 && i <= |es|
    requires forall e :: e in es ==> e.node in parent.children
    requires KeptEntries(es, cfg, size)
    requires |ctx.prefix| == 4 * ctx.depth
    requires !BeyondLimit(cfg, ctx.depth) && !AtLimit(cfg, ctx.depth)
    ensures var lines := RenderEntries(parent, es, i, cfg, ctx, size);
      var t := ctx.prefix + "│";
      && ConnectorsAt(lines, t) == (if i < |es| && !ctx.isLast then [Connector(t)] else [])
      && (i < |es| && !ctx.isLast ==> EndsWith(lines, Connector(t)))
    decreases |es| - i
  {
    if i < |es| {
      var t := ctx.prefix + "│";
      var last := i == |es| - 1;
      RenderEntriesCons(parent, es, i, cfg, ctx, size);
      var own := RenderEntry(parent, es[i], last, cfg, ctx, size);
      var rest := RenderEntries(parent, es, i + 1, cfg, ctx, size);
      ConnectorsOfEntry(parent, es[i], last, cfg, ctx, size);
      ConnectorsOfEntries(parent, es, i + 1, cfg, ctx, size);
      ConnectorsAtAppend(own, rest, t);
      if !ctx.isLast {
        EndsWithAppend(own, rest, Connector(t));
      }
    }
  }

  /**
    The connector rule: the bare line `prefix + "│"` of a printed call is
    emitted once, as its last line, exactly when the node is a directory
    that is printed and expanded, has kept entries, and is not the last of
    its siblings; otherwise never. The root, called as last, never emits it.
  */
  lemma OwnConnector(n: Node, cfg: Config, ctx: Context)
    requires CallOk(n, ctx)
    ensures var lines := Render(n, cfg, ctx);
      var t := ctx.prefix + "│";
      var emits := n.Dir? && DirSize(n) > cfg.threshold
        && !BeyondLimit(cfg, ctx.depth) && !AtLimit(cfg, ctx.depth)
        && |SortedEntries(n.children, cfg.threshold)| > 0 && !ctx.isLast;
      && ConnectorsAt(lines, t) == (if emits then [Connector(t)] else [])
      && (emits ==> EndsWith(lines, Connector(t)))
  {
    var t := ctx.prefix + "│";
    if !BeyondLimit(cfg, ctx.depth) && DirSize(n) > cfg.threshold {
      var size := DirSize(n);
      var head := DirLine(n, ctx, size);
      ConnectorsAtNone([head], t);
      if !AtLimit(cfg, ctx.depth) {
        var es := SortedEntries(n.children, cfg.threshold);
        var rest := RenderEntries(n, es, 0, cfg, ctx, size);
        SortedEntriesKept(n, cfg);
        ConnectorsOfEntries(n, es, 0, cfg, ctx, size);
        assert Render(n, cfg, ctx) == [head] + rest;
        ConnectorsAtAppend([head], rest, t);
        if |es| > 0 && !ctx.isLast {
          EndsWithAppend([head], rest, Connector(t));
        }
      } else {
        assert [head][1..] == [];
      }
    }
  }

  lemma DivAdd(a: real, b: real, p: real)
    requires p > 0.0
    ensures a / p + b / p == (a + b) / p
  {
    var x := a / p;
    var y := b / p;
    var z := (a + b) / p;
    assert x * p == a && y * p == b && z * p == a + b;
    assert (x + y - z) * p == x * p + y * p - z * p;
    assert (x + y - z) * p == 0.0;
  }

  function SumPercents(es: seq<Info>, parent: nat): real
    requires parent > 0
  {
    if es == [] then 0.0 else Percent(es[0].size, parent) + SumPercents(es[1..], parent)
  }

  lemma {:induction false} SumPercentsIsPercentOfSum(es: seq<Info>, parent: nat)
    requires parent > 0
    ensures SumPercents(es, parent) == Percent(SumSizes(es), parent)
  {
    if es != [] {
      SumPercentsIsPercentOfSum(es[1..], parent);
      DivAdd(es[0].size as real, SumSizes(es[1..]) as real, parent as real);
    }
  }

  /**
    The percentages printed for the kept entries of a directory add up to
    at most 100: they share the directory's aggregate size as denominator.
  */
  lemma ChildPercentagesSum(ns: seq<Node>, threshold: nat)
    requires SizeAll(ns) > 0
    ensures SumPercents(SortedEntries(ns, threshold), SizeAll(ns)) <= 100.0
  {
    var es := SortedEntries(ns, threshold);
    SortedEntriesSpec(ns, threshold);
    SumPercentsIsPercentOfSum(es, SizeAll(ns));
    if SumSizes(es) > 0 {
      PercentBounds(SumSizes(es), SizeAll(ns));
    }
  }
}
