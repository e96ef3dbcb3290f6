# dstree, modelled in Dafny

`dstree` prints the disk usage of a directory as a tree. The output has one
line per directory or file whose aggregate size is strictly above a
threshold. Siblings appear largest first. Each line carries tree-drawing
glyphs, the size in binary units with a colour band, and a progress bar
showing its share of the enclosing directory. The `--depth` option limits
how deep the tree is expanded.

This project models the core of `dstree.py` with the filesystem replaced
by an in-memory tree:

- `FileTree.Node` is a file with a byte size, a directory with its listing,
  or an entry that cannot be sized or listed (`Unreadable`).
- `SizeAggregator` (`size_aggregator.dfy`) models `get_dir_size`. It
  defines the aggregate size (`Size`, `DirSize`) and an independent
  reference: the list of file sizes of a subtree. `GetDirSize` is the walk
  as a loop over a stack of directories still to visit.
- `Entries` (`entries.dfy`) models `get_sorted_entries`. `Kept` is the
  listing loop and `SortBySize` is a stable insertion sort, largest first,
  standing for Python's `sorted(..., reverse=True)`. `GetSortedEntries` is
  the loop that builds the list.
- `TreeRenderer` (`tree_renderer.dfy`) models `print_tree`. The printed
  output is a sequence of `Line` records:
  - `Entry(prefix, branch, name, size, percent)` holds the arguments of
    `format_entry` before any text formatting;
  - `Connector(text)` is the bare continuation line.

  `Render` is the specification and `PrintTree` the recursive procedure
  with its loop over the sorted entries.
- `TreeRendererProps` (`tree_renderer_props.dfy`) proves what the rendered
  lines satisfy: pruning, the depth bound, glyphs and prefixes, the
  connector rule and percentage bounds.
- `Formatting` (`formatting.dfy`) covers:
  - the size colour of `Colors.get_color`;
  - the unit loop of `convert_size`;
  - the usage colour and glyph counts of `get_progress_bar`;
  - the column layout of `format_entry`.

The threshold is a natural number of bytes. Sizes are integers, so
"size > t" for a real `t ≥ 0` is the same as "size > floor(t)".
Percentages are exact reals.

## Model

| member | source | states |
|---|---|---|
| SizeAggregator.GetDirSize | dstree.py:67-79 | The walk returns the aggregate size of a directory: every file below it counted once, unreadable files and subtrees counted 0. A path that is not a directory gives 0. |
| SizeAggregator.SizeIsSumOfFiles | dstree.py:67-79 | The aggregate size of a subtree equals the sum of the sizes of all regular files in it (reference definition `FileSizes`). |
| SizeAggregator.SizeAllIsSumOfFiles | dstree.py:70-76 | The same equality for a whole listing: the aggregate of the entries equals the sum of all their files' sizes. |
| SizeAggregator.ChildSizeBounded | dstree.py:70-76 | No entry of a directory has an aggregate size larger than the directory's. |
| SizeAggregator.UnreadableChildLosesOnlyItself | dstree.py:73-78 | Making one entry unreadable lowers the directory total by exactly that entry's own size; the other entries still count in full. |
| Entries.GetSortedEntries | dstree.py:81-96 | The listing loop plus the sort return exactly `SortedEntries` of the children. |
| Entries.SortedEntries | dstree.py:81-96 | Every returned entry is one of the listed children. |
| Entries.SortedEntriesSpec | dstree.py:81-96 | The result is non-increasing by size. It holds exactly the children that can be sized and exceed the threshold, each as often as it is listed and measured as the loop measures it. Equal sizes keep listing order. The sizes sum to at most the directory's aggregate. |
| Entries.KeptSound | dstree.py:82-94 | Every kept entry is a listed child that passes the threshold, with the size and kind the loop measured. |
| Entries.KeptCount | dstree.py:82-94 | A child that passes the threshold is kept exactly as often as it occurs in the listing. |
| Entries.KeptSizeBounded | dstree.py:82-94 | The kept sizes sum to at most the directory's aggregate size. |
| Entries.SortDescending | dstree.py:96 | The sorted list is non-increasing by size. |
| Entries.SortPermutes | dstree.py:96 | The sort is a permutation (same multiset). |
| Entries.SortSum | dstree.py:96 | The sort keeps the sum of the sizes. |
| Entries.SortStable | dstree.py:96 | The sort is stable: for every size, the entries of that size appear in their original order. |
| TreeRenderer.PrintTree | dstree.py:99-139 | The procedure prints exactly the lines of `Render`: depth check, size check, own line, depth-limit stop, then each sorted entry (a recursive call for a directory, a file line otherwise) with the connector after the last entry. |
| TreeRendererProps.PercentBounds | dstree.py:112-125 | A percentage of a positive part of a parent is in (0, 100]. |
| TreeRendererProps.SortedEntriesKept | dstree.py:105-121 | The entries a printed directory walks are children above the threshold, each no larger than the directory, measured as `get_sorted_entries` measures them. |
| TreeRendererProps.RenderLinesOk | dstree.py:99-139 | For a call made as the program makes it (prefix of 4 characters per level; below the root, a parent at least as large): in every line, entries are above the threshold. The prefix is 4 characters per level, at least the call's own depth and at most 4·`--depth`. Percentages are in (0, 100]. The branch is empty exactly when the percentage is absent. A connector has at least `4·d+1` characters and a length of 1 more than a multiple of 4, for the call's depth `d`. After the first line every entry is at least one level deeper. |
| TreeRendererProps.TreeLinesOk | dstree.py:101-134 | For the whole tree: nothing at or below the threshold is printed; no entry is deeper than `--depth`; every percentage is in (0, 100]; only the first line, the root, has no branch glyph and no percentage. |
| TreeRendererProps.DepthZeroPrintsRootOnly | dstree.py:101-118 | With `--depth 0` the tree is the root line alone when the root exceeds the threshold, and empty otherwise. |
| TreeRendererProps.ListedChildren | dstree.py:120-134 | The entry lines at the child prefix (`prefix + "    "` if the directory is last, `prefix + "│   "` otherwise) are exactly its sorted kept entries, in order. `└──` goes on the last one and `├──` on all others. Each shows its name (`/` added for a directory), its size and its percentage of the directory. |
| TreeRendererProps.ConnectorsOfEntries | dstree.py:123-139 | Across the loop over the entries, the connector `prefix + "│"` appears once, as the last line, if there is an entry and the directory is not last; otherwise it does not appear. |
| TreeRendererProps.OwnConnector | dstree.py:136-139 | A call emits its connector `prefix + "│"` exactly once, as its last line, exactly when it prints and expands a directory that has kept entries and is not last; otherwise never. The root, called as last, never emits one. |
| TreeRendererProps.SumPercentsIsPercentOfSum | dstree.py:125 | The children's percentages add up to the percentage of the sum of their sizes. |
| TreeRendererProps.ChildPercentagesSum | dstree.py:123-125 | The percentages of the kept children of a non-empty directory sum to at most 100. |
| Formatting.SizeColorOfBytes | dstree.py:41-43 | The size colour of a byte count is decided by integer comparisons with 100, 500 and 1024 MiB. |
| Formatting.SizeColorMonotone | dstree.py:14-18 | A larger size never gets a colour lower on the green–yellow–orange–red scale. |
| Formatting.ScaleStep | dstree.py:45-48 | At unit k, the value is below 1024 exactly when the size is below 1024^(k+1); dividing by 1024 gives the size in unit k+1. |
| Formatting.UnitFound | dstree.py:45-47 | When the loop stops at unit k, the value, the unit and the colour express the size, and the size is below 1024^5. |
| Formatting.ConvertSize | dstree.py:41-48 | There is a result exactly when the size is below 1024^5. The unit is the first k with size < 1024^(k+1), and the value is the size in that unit, in [0, 1024). The colour is that of the size in MB. |
| Formatting.UsageColorMonotone | dstree.py:31-36 | A higher percentage never gets a lower usage colour. |
| Formatting.Trunc | dstree.py:30 | Python's `int()` on a float truncates toward zero. |
| Formatting.Repeat | dstree.py:38 | A repeated glyph string has the requested length (0 if it is not positive) and holds only that glyph. |
| Formatting.ProgressBarShape | dstree.py:29-39 | For a percentage in [0, 100], `filled` is the floor of `width·pct/100`, in [0, width]. The bar is `width` glyphs: full exactly before position `filled`, empty from there on. Its colour is the usage band: below 60, below 85, otherwise high. |
| Formatting.FilledMonotone | dstree.py:30 | A larger percentage never fills fewer glyphs. |
| Formatting.PadRight | dstree.py:56 | The name padded to 45: the name, then spaces up to the width; never truncated. |
| Formatting.PadLeft | dstree.py:59 | The size text right-aligned in 10: spaces, then the text; never truncated. |
| Formatting.ColoredSizeWidth | dstree.py:47 | The text `convert_size` returns (colour escape, `%7.1f` number, unit, reset escape) is at least 27 characters long. |
| Formatting.SizeColumnUnpadded | dstree.py:59-65 | A size text at least 10 characters wide is not padded: the column is a space, the text in brackets, then two spaces and the progress text only when there is one. |
| Formatting.ConvertedSizeColumn | dstree.py:47-65 | On every entry line the tree prints, the size text from `convert_size` sits in brackets with no padding, followed by the progress text when there is one. |
| Formatting.FormatEntryColumns | dstree.py:50-65 | A name of at most 45 characters is followed by spaces up to column 45 after prefix and branch, where the size column starts. |
| SizeAggregator.Size | dstree.py:67-79 | Definition: the bytes a node adds to its directory (a file's size, the sum over a directory's entries, 0 if unreadable). Its properties are in `SizeIsSumOfFiles`, `ChildSizeBounded` and `UnreadableChildLosesOnlyItself`. |
| SizeAggregator.DirSize | dstree.py:67-79 | Definition: what `get_dir_size` returns for a path, 0 if it is not a directory. `GetDirSize` is proved equal to it. |
| Entries.Measure | dstree.py:85-94 | Definition: how the loop sizes one entry (walk for a directory, `stat` for a file, skipped if that fails). `KeptSound` and `MeasureIsSize` carry its properties. |
| Entries.Kept | dstree.py:82-94 | Definition: the list the loop builds, in listing order. `KeptSound`, `KeptCount` and `KeptSizeBounded` carry its properties; `GetSortedEntries` computes it. |
| Entries.Insert | dstree.py:96 | Definition: one insertion step of the stable sort. `InsertPermutes`, `InsertSum`, `InsertWithSize` and `InsertDescending` carry its properties. |
| Entries.SortBySize | dstree.py:96 | Definition: `sorted(..., key=size, reverse=True)` as a stable insertion sort. `SortDescending`, `SortPermutes`, `SortSum` and `SortStable` carry its properties. |
| TreeRenderer.Render | dstree.py:99-139 | Definition: the lines one call of `print_tree` prints. `PrintTree` is proved equal to it; `RenderLinesOk`, `ListedChildren` and `OwnConnector` carry its properties. |
| TreeRenderer.RenderEntries | dstree.py:123-139 | Definition: the loop over the sorted entries from position `i`. `ConnectorsOfEntries` and `EntriesAtRenderEntries` carry its properties. |
| TreeRenderer.RenderEntry | dstree.py:124-139 | Definition: one turn of the loop, the entry's lines and then the connector after the last entry of a non-last directory. `ConnectorsOfEntry` and `EntriesAtRenderEntry` carry its properties. |
| TreeRenderer.EntryBlock | dstree.py:127-134 | Definition: a recursive call for a directory entry, the file line otherwise. `EntryBlockAt` and `EntryBlockConnectors` carry its properties. |
| TreeRenderer.DirLine | dstree.py:107-115 | Definition: the line a printed directory prints for itself, without branch and percentage at depth 0. Its properties are in `RenderLinesOk`. |
| TreeRenderer.FileLine | dstree.py:125-134 | Definition: the line of a kept file. Its properties are in `RenderEntryLinesOk` and `ListedChildren`. |
| TreeRenderer.Tree | dstree.py:99-100 | Definition: the call as `main` makes it, with empty prefix, last, depth 0. `TreeLinesOk` and `DepthZeroPrintsRootOnly` carry its properties. |
| TreeRendererProps.EntriesAtRenderEntries | dstree.py:123-134 | The entry lines the loop prints at the child prefix are, in order, one line per remaining entry with its glyph, name, size and percentage. |
| TreeRendererProps.RenderEntryLinesOk | dstree.py:124-139 | Every line of one turn of the loop satisfies the line invariants one level deeper. |
| Formatting.SizeColor | dstree.py:14-18 | Definition: `Colors.get_color` on megabytes, cut at 100, 500 and 1024. `SizeColorOfBytes` and `SizeColorMonotone` carry its properties. |
| Formatting.SizeColorCode | dstree.py:14-18 | Definition: the escape sequence of each size band. `ColoredSizeWidth` uses its length. |
| Formatting.ColoredSize | dstree.py:47 | Definition: the text `convert_size` returns. `ColoredSizeWidth` and `ConvertedSizeColumn` carry its properties. |
| Formatting.UsageColor | dstree.py:31-36 | Definition: the usage band, cut at 60 and 85. `UsageColorMonotone` and `ProgressBarShape` carry its properties. |
| Formatting.Filled | dstree.py:30 | Definition: `int(width * percentage / 100)`. `ProgressBarShape` and `FilledMonotone` carry its properties. |
| Formatting.GetProgressBar | dstree.py:29-39 | Definition: the bar's band, glyphs and percentage. `ProgressBarShape` carries its properties. |
| Formatting.SizeColumn | dstree.py:59-65 | Definition: the text after the name column. `SizeColumnUnpadded` and `ConvertedSizeColumn` carry its properties. |
| Formatting.FormatEntry | dstree.py:50-65 | Definition: `format_entry`. `FormatEntryColumns` carries its properties. |

## Left out

- `main` (dstree.py:141-180) is not modelled. It covers argument parsing, the directory check with exit status 1, the disk-capacity header, the colour legend, and turning the GB threshold into bytes.
- Real filesystem calls are replaced by the `Node` tree: `os.walk`, `os.path.getsize`, `Path.iterdir`, `is_dir` and `stat`. Symbolic links, and entries that change during the walk, are not modelled.
- Two failures are folded into `Unreadable`: a file whose `stat` fails and a directory that cannot be listed. Both contribute 0 to the aggregate size and are never kept.
- The exception of `path.iterdir()` is left out. The call (dstree.py:83) sits outside the `try` (dstree.py:84), so an error while listing would stop the run rather than skip the directory. The case cannot arise in the model: `os.walk` skips a directory it cannot list, so such a directory sums to 0, and with a threshold ≥ 0 it is never printed or listed.
- The program's own legend prints the usage bands as "60-85%" and "> 85%" (dstree.py:175-176). The code's `elif percentage < 85` (dstree.py:33-36) puts exactly 85 in the high band; `UsageColor` follows the code.
- Text rendering is left out:
  - the colours are modelled as the bands they select. The escapes are written out as text only in the size field (`Formatting.ColoredSize`), the one place where they count toward a format width: they make the text of `convert_size` at least 27 characters long, so `{size_str:>10}` never pads it (`Formatting.ConvertedSizeColumn`). The escapes of the progress bar are not written out; the bar comes last on the line and has no width;
  - the `%7.1f` and `%5.1f` number text is modelled as the exact value shown;
  - the line text is not assembled from `Line` records. `FormatEntry` models the column layout alone.
- Percentages and unit values are exact reals rather than floats. So float rounding of `(size / parent) * 100` and of `width * pct / 100` is not modelled.
- TreeRenderer.Render: for a size of 1024^5 bytes or more, `convert_size` returns `None` (`Formatting.ConvertSize` models this). `print_tree` passes that `None` to `format_entry`, where `f"({size_str:>10})"` (dstree.py:59) raises `TypeError` and stops the run. `Render` does not model the crash: it still emits an `Entry` line for such a size. Only `main`'s header (dstree.py:158-159, not modelled) would print the text `None`.
- The threshold is a natural number of bytes rather than a float.
- The progress-bar width is a parameter. The source uses 30 in `print_tree` and 40 in `main`.
- SizeAggregator.GetDirSize: `os.walk` visits directories top-down in listing order, while the model's stack visits them in another order. The sum does not depend on the order, so only the total is stated.
- Entries.SortBySize: Python's `sorted` (Timsort) is modelled by a stable insertion sort. Any two stable sorts by the same key give the same result, and the properties proved are those of the result.
