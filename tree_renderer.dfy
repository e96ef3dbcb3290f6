/**
  The tree renderer (`print_tree`): a depth-first walk that prints one line
  per directory or file whose size exceeds the threshold, largest first, with
  tree-drawing prefixes and a percentage of the enclosing directory. Printing
  is modelled by returning the printed lines as records.
*/
module TreeRenderer {
  import opened Wrappers
  import opened FileTree
  import opened SizeAggregator
  import opened Entries

  /** Run-wide settings: the threshold in bytes and the optional `--depth`. */
  datatype Config = Config(threshold: nat, maxDepth: Option<int>)

  /**
    What each recursive call of `print_tree` receives from its caller:
    indentation prefix, whether it is the last kept sibling, its depth and
    the aggregate size of its parent. The root call has no parent; it gets
    0 here, a value that no line of depth 0 uses.
  */
  datatype Context = Context(prefix: string, isLast: bool, depth: nat, parentSize: nat)

  /**
    One printed line. `Entry` holds the arguments of `format_entry`: the
    prefix, the branch glyph, the name, the size before `convert_size`, and
    the percentage before `get_progress_bar` (absent on the root line).
    `Connector` is the bare continuation line.
  */
  datatype Line =
    | Entry(prefix: string, branch: string, name: string, size: nat, percent: Option<real>)
    | Connector(text: string)

  function Branch(isLast: bool): string
  {
    if isLast then "└──" else "├──"
  }

  function Indent(isLast: bool): string
  {
    if isLast then "    " else "│   "
  }

  /** The prefix handed to the children of a directory printed with `ctx`. */
  function ChildPrefix(ctx: Context): string
  {
    ctx.prefix + Indent(ctx.isLast)
  }

  /** `(size / parent) * 100`, computed exactly. */
  function Percent(size: nat, parent: nat): real
    requires parent > 0
  {
    (size as real / parent as real) * 100.0
  }

  /** Depth limit reached: a node at this depth is printed but not expanded. */
  predicate AtLimit(cfg: Config, depth: nat)
  {
    cfg.maxDepth.Some? && depth == cfg.maxDepth.value
  }

  predicate BeyondLimit(cfg: Config, depth: nat)
  {
    cfg.maxDepth.Some? && depth > cfg.maxDepth.value
  }

  /** The line a kept directory prints for itself. */
  function DirLine(n: Node, ctx: Context, size: nat): Line
    requires ctx.depth > 0 ==> ctx.parentSize > 0
  {
    if ctx.depth == 0 then Entry("", "", n.name + "/", size, None)
    else Entry(ctx.prefix, Branch(ctx.isLast), n.name + "/", size, Some(Percent(size, ctx.parentSize)))
  }

  /** The line a kept file prints, with the context its directory gives it. */
  function FileLine(e: Info, child: Context): Line
    requires child.parentSize > 0
  {
    Entry(child.prefix, Branch(child.isLast), e.node.name, e.size, Some(Percent(e.size, child.parentSize)))
  }

  /** Everything `print_tree(n, ...)` prints. */
  function Render(n: Node, cfg: Config, ctx: Context): seq<Line>
    requires ctx.depth > 0 ==> ctx.parentSize > 0
    decreases n, 2
  {
    if BeyondLimit(cfg, ctx.depth) then []
    else
      var size := DirSize(n);
      if size <= cfg.threshold then []
      else
        var head := DirLine(n, ctx, size);
        if AtLimit(cfg, ctx.depth) then [head]
        else [head] + RenderEntries(n, SortedEntries(n.children, cfg.threshold), 0, cfg, ctx, size)
  }

  /**
    The loop of `print_tree` over the kept entries `es` of `parent`, from
    position `i` on.
  */
  function RenderEntries(parent: Node, es: seq<Info>, i: nat, cfg: Config, ctx: Context, size: nat): seq<Line>
    requires parent.Dir? && size > 0 && i <= |es|
    requires forall e :: e in es ==> e.node in parent.children
    decreases parent, 1, |es| - i
  {
    if i == |es| then []
    else RenderEntry(parent, es[i], i == |es| - 1, cfg, ctx, size) + RenderEntries(parent, es, i + 1, cfg, ctx, size)
  }

  /**
    One turn of that loop: a directory recurses, a file prints its line, and
    after the last entry a non-last directory prints a connector.
  */
  function RenderEntry(parent: Node, e: Info, isLastEntry: bool, cfg: Config, ctx: Context, size: nat): seq<Line>
    requires parent.Dir? && size > 0 && e.node in parent.children
    decreases parent, 0, 1
  {
    EntryBlock(parent, e, cfg, Context(ChildPrefix(ctx), isLastEntry, ctx.depth + 1, size))
    + (if isLastEntry && !ctx.isLast then [Connector(ctx.prefix + "│")] else [])
  }

  /** The lines of one kept entry printed with `child`: a recursive call, or a file line. */
  function EntryBlock(parent: Node, e: Info, cfg: Config, child: Context): seq<Line>
    requires parent.Dir? && child.parentSize > 0 && e.node in parent.children
    decreases parent, 0, 0
  {
    if e.isDir then Render(e.node, cfg, child) else [FileLine(e, child)]
  }

  /** The whole tree, as `main` starts it: empty prefix, last, depth 0, no parent. */
  function Tree(root: Node, cfg: Config): seq<Line>
  {
    Render(root, cfg, Context("", true, 0, 0))
  }

  /**
    `print_tree`: checks the depth, sizes the directory, prints its line,
    then walks its sorted entries, recursing into directories.
  */
  method PrintTree(n: Node, cfg: Config, ctx: Context) returns (lines: seq<Line>)
    requires ctx.depth > 0 ==> ctx.parentSize > 0
    ensures lines == Render(n, cfg, ctx)
    decreases n
  {
    if BeyondLimit(cfg, ctx.depth) {
      return [];
    }
    var size := GetDirSize(n);
    if size <= cfg.threshold {
      return [];
    }
    lines := [DirLine(n, ctx, size)];
    if AtLimit(cfg, ctx.depth) {
      return;
    }
    var newPrefix := ChildPrefix(ctx);
    var entries := GetSortedEntries(n.children, cfg.threshold);
    var i := 0;
    assert Render(n, cfg, ctx) == lines + RenderEntries(n, entries, 0, cfg, ctx, size);
    while i < |entries|
      invariant 0 <= i <= |entries|
      invariant lines + RenderEntries(n, entries, i, cfg, ctx, size) == Render(n, cfg, ctx)
    {
      var e := entries[i];
      var isLastEntry := i == |entries| - 1;
      var child := Context(newPrefix, isLastEntry, ctx.depth + 1, size);
      assert e in entries;
      var block: seq<Line>;
      if e.isDir {
        block := PrintTree(e.node, cfg, child);
      } else {
        block := [FileLine(e, child)];
      }
      assert block == EntryBlock(n, e, cfg, child);
      if isLastEntry && !ctx.isLast {
        block := block + [Connector(ctx.prefix + "│")];
      }
      assert block == RenderEntry(n, e, isLastEntry, cfg, ctx, size);
      assert RenderEntries(n, entries, i, cfg, ctx, size)
        == block + RenderEntries(n, entries, i + 1, cfg, ctx, size);
      assert lines + block + RenderEntries(n, entries, i + 1, cfg, ctx, size)
        == lines + (block + RenderEntries(n, entries, i + 1, cfg, ctx, size));
      lines := lines + block;
      i := i + 1;
    }
  }
}
