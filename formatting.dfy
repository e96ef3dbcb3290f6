/**
  The formatting helpers: the size colour band, the unit chosen for a byte
  count, the usage progress bar and the column layout of one entry line.
  ANSI escape sequences are represented by the band they select, and the
  fixed-point number text (`%7.1f`, `%5.1f`) by the exact value it shows.
*/
module Formatting {
  import opened Wrappers

  /** The four colours of `Colors.get_color`: green, yellow, orange, red. */
  datatype SizeBand = Green | Yellow | Orange | Red

  /** The three colours of the usage bar. */
  datatype UsageBand = Low | Medium | High

  const MiB: nat := 1024 * 1024

  /** `Colors.get_color`, on a size in megabytes. */
  function SizeColor(sizeMb: real): SizeBand
  {
    if sizeMb < 100.0 then Green
    else if sizeMb < 500.0 then Yellow
    else if sizeMb < 1024.0 then Orange
    else Red
  }

  function SizeRank(b: SizeBand): nat
  {
    match b
    case Green => 0
    case Yellow => 1
    case Orange => 2
    case Red => 3
  }

  /**
    The band of a byte count, as `convert_size` computes it from
    `size / (1024 * 1024)`: the division is by a power of two, so the band
    is decided by integer comparisons with 100, 500 and 1024 MiB.
  */
  lemma SizeColorOfBytes(size: nat)
    ensures SizeColor(size as real / MiB as real)
      == if size < 100 * MiB then Green
         else if size < 500 * MiB then Yellow
         else if size < 1024 * MiB then Orange
         else Red
  {
    var mb := size as real / MiB as real;
    assert mb * MiB as real == size as real;
  }

  /** A larger size never gets a colour lower on the scale. */
  lemma SizeColorMonotone(a: real, b: real)
    requires a <= b
    ensures SizeRank(SizeColor(a)) <= SizeRank(SizeColor(b))
  {
  }

  function Pow1024(k: nat): (r: nat)
    ensures r >= 1
  {
    if k == 0 then 1 else 1024 * Pow1024(k - 1)
  }

  /** The unit names tried by `convert_size`, in order. */
  const Units: seq<string> := ["B", "KB", "MB", "GB", "TB"]

  /** What `convert_size` shows: the scaled value, the index of its unit in `Units`, the colour. */
  datatype Scaled = Scaled(value: real, unit: nat, band: SizeBand)

  lemma MulLessIff(a: real, b: real, c: real)
    requires c > 0.0
    ensures a < b <==> a * c < b * c
  {
    assert b * c - a * c == (b - a) * c;
  }

  /** The next power of 1024, as a real. */
  lemma PowNext(k: nat)
    ensures Pow1024(k + 1) as real == 1024.0 * Pow1024(k) as real
  {
    assert Pow1024(k + 1) == 1024 * Pow1024(k);
  }

  /**
    One turn of the unit loop at unit `k`: the value is below 1024 exactly
    when the size is below the next power, and dividing it by 1024 gives
    the size in the next unit.
  */
  lemma ScaleStep(value: real, k: nat, size: nat)
    requires value * Pow1024(k) as real == size as real
    ensures value < 1024.0 <==> size < Pow1024(k + 1)
    ensures (value / 1024.0) * Pow1024(k + 1) as real == size as real
  {
    var pr := Pow1024(k) as real;
    PowNext(k);
    ScaleBound(value, pr, size as real);
    assert (value / 1024.0) * (1024.0 * pr) == value * pr;
  }

  lemma ScaleBound(value: real, pr: real, size: real)
    requires pr > 0.0 && value * pr == size
    ensures value < 1024.0 <==> size < 1024.0 * pr
  {
    MulLessIff(value, 1024.0, pr);
  }

  lemma {:induction false} PowMonotone(i: nat, j: nat)
    requires i <= j
    ensures 0 < Pow1024(i) <= Pow1024(j)
    decreases j
  {
    if i < j {
      PowMonotone(i, j - 1);
    }
  }

  /**
    What a result of `convert_size` says about the size it came from: the
    unit is one of the five, the first whose next power exceeds the size;
    the value is the size in that unit, below 1024; the colour is that of
    the size in MB.
  */
  predicate Expresses(s: Scaled, size: nat)
  {
    && s.unit < |Units|
    && size < Pow1024(s.unit + 1)
    && (s.unit > 0 ==> size >= Pow1024(s.unit))
    && 0.0 <= s.value < 1024.0
    && s.value * Pow1024(s.unit) as real == size as real
    && s.band == SizeColor(size as real / MiB as real)
  }

  /** When the loop stops at unit `k`, its value and unit express the size, which is below `1024^5`. */
  lemma UnitFound(value: real, k: nat, size: nat, band: SizeBand)
    requires k < |Units| && value * Pow1024(k) as real == size as real
    requires (k > 0 ==> size >= Pow1024(k)) && size < Pow1024(k + 1) && value < 1024.0
    requires band == SizeColor(size as real / MiB as real)
    ensures Expresses(Scaled(value, k, band), size)
    ensures size < Pow1024(5)
  {
    PowMonotone(k + 1, 5);
    if value < 0.0 {
      MulLessIff(value, 0.0, Pow1024(k) as real);
    }
  }

  /**
    `convert_size`: divides by 1024 until the value is below 1024 and
    returns it with the unit reached and the size's colour; past `TB` the
    loop ends without a result.
  */
  method ConvertSize(size: nat) returns (r: Option<Scaled>)
    ensures r.Some? <==> size < Pow1024(5)
    ensures r.Some? ==> Expresses(r.value, size)
  {
    var band := SizeColor(size as real / MiB as real);
    var value := size as real;
    var k := 0;
    while k < |Units|
      invariant 0 <= k <= |Units|
      invariant value * Pow1024(k) as real == size as real
      invariant k > 0 ==> size >= Pow1024(k)
    {
      ScaleStep(value, k, size);
      if value < 1024.0 {
        UnitFound(value, k, size, band);
        return Some(Scaled(value, k, band));
      }
      value := value / 1024.0;
      k := k + 1;
    }
    r := None;
  }

  /** The usage colour of `get_progress_bar`. */
  function UsageColor(pct: real): UsageBand
  {
    if pct < 60.0 then Low else if pct < 85.0 then Medium else High
  }

  function UsageRank(b: UsageBand): nat
  {
    match b
    case Low => 0
    case Medium => 1
    case High => 2
  }

  /** A higher percentage never gets a colour lower on the scale. */
  lemma UsageColorMonotone(a: real, b: real)
    requires a <= b
    ensures UsageRank(UsageColor(a)) <= UsageRank(UsageColor(b))
  {
  }

  /** Python's `int()` on a float: truncation toward zero. */
  function Trunc(x: real): (r: int)
    ensures x >= 0.0 ==> r as real <= x < r as real + 1.0
    ensures x < 0.0 ==> r as real - 1.0 < x <= r as real
  {
    if x >= 0.0 then x.Floor else -((-x).Floor)
  }

  /** `c * n` on a one-character string: empty when `n` is not positive. */
  function Repeat(c: char, n: int): (r: string)
    ensures |r| == if n > 0 then n else 0
    ensures forall i :: 0 <= i < |r| ==> r[i] == c
    decreases n
  {
    if n <= 0 then [] else [c] + Repeat(c, n - 1)
  }

  const Full: char := '█'
  const Empty: char := '░'

  /** A progress bar: its colour, its glyphs and the percentage printed after it. */
  datatype ProgressBar = ProgressBar(band: UsageBand, glyphs: string, percent: real)

  /** Number of full glyphs: `int(width * percentage / 100)`. */
  function Filled(pct: real, width: int): int
  {
    Trunc(width as real * pct / 100.0)
  }

  /** `get_progress_bar(percentage, width)`. */
  function GetProgressBar(pct: real, width: int): ProgressBar
  {
    var filled := Filled(pct, width);
    ProgressBar(UsageColor(pct), Repeat(Full, filled) + Repeat(Empty, width - filled), pct)
  }

  /**
    For a percentage in [0, 100] and a non-negative width the bar has
    exactly `width` glyphs: the floor of `width · pct / 100` full ones, then
    empty ones.
  */
  lemma ProgressBarShape(pct: real, width: int)
    requires 0.0 <= pct <= 100.0 && width >= 0
    ensures var bar := GetProgressBar(pct, width);
      var f := Filled(pct, width);
      && 0 <= f <= width
      && f == (width as real * pct / 100.0).Floor
      && |bar.glyphs| == width
      && (forall i :: 0 <= i < width ==> (bar.glyphs[i] == Full <==> i < f))
      && (forall i :: 0 <= i < width ==> (bar.glyphs[i] == Empty <==> i >= f))
      && bar.band == UsageColor(pct)
  {
    var x := width as real * pct / 100.0;
    assert 0.0 <= x by {
      assert width as real * pct >= 0.0;
    }
    assert x <= width as real by {
      assert width as real * pct <= width as real * 100.0;
    }
    var f := Filled(pct, width);
    var bar := GetProgressBar(pct, width);
    var full := Repeat(Full, f);
    assert bar.glyphs == full + Repeat(Empty, width - f);
    forall i | 0 <= i < width ensures bar.glyphs[i] == Full <==> i < f {
      if i < f {
        assert bar.glyphs[i] == full[i];
      } else {
        assert bar.glyphs[i] == Repeat(Empty, width - f)[i - f];
      }
    }
  }

  /** A larger percentage never fills fewer glyphs of a bar of the same width. */
  lemma FilledMonotone(a: real, b: real, width: int)
    requires 0.0 <= a <= b && width >= 0
    ensures Filled(a, width) <= Filled(b, width)
  {
    var x := width as real * a / 100.0;
    var y := width as real * b / 100.0;
    assert width as real * a <= width as real * b;
    assert x <= y;
    assert 0.0 <= x;
    assert Filled(a, width) == x.Floor && Filled(b, width) == y.Floor;
    assert x.Floor as real <= x && y < y.Floor as real + 1.0;
  }

  /** `f"{s:<{w}}"`: `s` followed by spaces up to `w` characters. */
  function PadRight(s: string, w: nat): (r: string)
    ensures |r| == if |s| >= w then |s| else w
    ensures r[..|s|] == s
    ensures forall i :: |s| <= i < |r| ==> r[i] == ' '
  {
    if |s| >= w then s else s + Repeat(' ', w - |s|)
  }

  /** `f"{s:>{w}}"`: spaces up to `w` characters, then `s`. */
  function PadLeft(s: string, w: nat): (r: string)
    ensures |r| == if |s| >= w then |s| else w
    ensures r[|r| - |s|..] == s
    ensures forall i :: 0 <= i < |r| - |s| ==> r[i] == ' '
  {
    if |s| >= w then s else Repeat(' ', w - |s|) + s
  }

  const NameWidth: nat := 45
  const SizeWidth: nat := 10

  /** The text after the name column: a space, the bracketed size, then two spaces and the progress text, if any. */
  function SizeColumn(sizeText: string, progress: string): string
  {
    var sizePart := "(" + PadLeft(sizeText, SizeWidth) + ")";
    if progress != "" then " " + sizePart + "  " + progress else " " + sizePart
  }

  /** `format_entry`: prefix, branch, the name padded to 45 columns, then the size column. */
  function FormatEntry(prefix: string, branch: string, name: string, sizeText: string, progress: string): string
  {
    prefix + branch + PadRight(name, NameWidth) + SizeColumn(sizeText, progress)
  }

  /** The escape sequence `Colors.get_color` returns for a band. */
  function SizeColorCode(b: SizeBand): string
  {
    match b
    case Green => "\U{1b}[38;2;0;255;0m"
    case Yellow => "\U{1b}[38;2;255;255;0m"
    case Orange => "\U{1b}[38;2;255;165;0m"
    case Red => "\U{1b}[38;2;255;0;0m"
  }

  /** `Colors.RESET`. */
  const Reset: string := "\U{1b}[0m"

  /**
    The text `convert_size` returns: the colour escape, the number as `%7.1f`
    writes it, the unit and the reset escape. The number text is a parameter.
  */
  function ColoredSize(band: SizeBand, number: string, unit: string): string
  {
    SizeColorCode(band) + number + unit + Reset
  }

  /**
    The escapes count toward the width of the size field: `%7.1f` writes at
    least 7 characters and a unit has at least one, so the text is never
    shorter than 27 characters, well past the 10 of the field.
  */
  lemma ColoredSizeWidth(band: SizeBand, number: string, unit: string)
    requires |number| >= 7 && |unit| >= 1
    ensures |ColoredSize(band, number, unit)| >= 27
  {
    assert |SizeColorCode(band)| >= 15;
  }

  /** A size text at least as wide as the field is put in brackets unpadded. */
  lemma SizeColumnUnpadded(sizeText: string, progress: string)
    requires |sizeText| >= SizeWidth
    ensures SizeColumn(sizeText, progress)
      == " (" + sizeText + ")" + (if progress != "" then "  " + progress else "")
  {
    assert PadLeft(sizeText, SizeWidth) == sizeText;
  }

  /**
    The size column of every entry line the tree prints: the text from
    `convert_size` is wider than the field, so it appears in brackets with
    no padding, followed by the progress text when there is one.
  */
  lemma ConvertedSizeColumn(band: SizeBand, number: string, unit: string, progress: string)
    requires |number| >= 7 && |unit| >= 1
    ensures var text := ColoredSize(band, number, unit);
      SizeColumn(text, progress) == " (" + text + ")" + (if progress != "" then "  " + progress else "")
  {
    ColoredSizeWidth(band, number, unit);
    SizeColumnUnpadded(ColoredSize(band, number, unit), progress);
  }

  /**
    The columns of an entry line: after prefix and branch come the name and
    spaces up to 45 characters, then the size column. So a name of at most
    45 characters puts the size column at the same position on every line
    with the same indentation.
  */
  lemma FormatEntryColumns(prefix: string, branch: string, name: string, sizeText: string, progress: string)
    requires |name| <= NameWidth
    ensures var line := FormatEntry(prefix, branch, name, sizeText, progress);
      var head := prefix + branch;
      && |line| == |head| + NameWidth + |SizeColumn(sizeText, progress)|
      && line[..|head| + |name|] == head + name
      && (forall i :: |head| + |name| <= i < |head| + NameWidth ==> line[i] == ' ')
      && line[|head| + NameWidth..] == SizeColumn(sizeText, progress)
  {
    Columns(FormatEntry(prefix, branch, name, sizeText, progress), prefix + branch, name,
            PadRight(name, NameWidth), SizeColumn(sizeText, progress));
  }

  /** The line split at the name column. */
  lemma Columns(line: string, head: string, name: string, namePart: string, rest: string)
    requires line == head + namePart + rest
    requires |namePart| == NameWidth && |name| <= NameWidth && namePart[..|name|] == name
    requires forall i :: |name| <= i < NameWidth ==> namePart[i] == ' '
    ensures line[..|head| + |name|] == head + name
    ensures forall i :: |head| + |name| <= i < |head| + NameWidth ==> line[i] == ' '
    ensures line[|head| + NameWidth..] == rest
  {
    assert line[..|head| + NameWidth] == head + namePart;
    assert (head + namePart)[..|head| + |name|] == head + namePart[..|name|];
    forall i | |head| + |name| <= i < |head| + NameWidth ensures line[i] == ' ' {
      assert line[i] == (head + namePart)[i] == namePart[i - |head|];
    }
  }
}
