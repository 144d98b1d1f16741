/** finder/report.go: `GeneratePeekReport`, which measures each match, labels it as a match or a symlink
    match, sorts the matches by size, largest first, and pads every row to the widest line. */
module Report {
  import opened Wrappers
  import opened Options
  import opened FileSystem
  import opened Formatter

  /** `MatchMeta` without its formatted size string. */
  datatype MatchMeta = MatchMeta(path: string, printLine: string, size: int)

  /** What the report prints: a zero-count line when there is nothing to show, otherwise the count, the
      total, the width every row is padded to and the rows in print order. */
  datatype PeekReport =
    | NoMatches(appName: string)
    | Summary(appName: string, numFiles: nat, totalSize: int, maxLineWidth: nat, metas: seq<MatchMeta>)

  /** The number of bytes Go's `len` counts for a character: its UTF-8 length. */
  function Utf8Len(c: char): nat
  {
    if c as int < 0x80 then 1 else if c as int < 0x800 then 2 else if c as int < 0x10000 then 3 else 4
  }

  /** `len(s)` on a Go string: the length of its UTF-8 encoding. */
  function ByteLen(s: string): nat
  {
    if |s| == 0 then 0 else Utf8Len(s[0]) + ByteLen(s[1..])
  }

  lemma {:induction false} ByteLenAppend(a: string, b: string)
    ensures ByteLen(a + b) == ByteLen(a) + ByteLen(b)
    decreases |a|
  {
    if |a| > 0 {
      assert (a + b)[1..] == a[1..] + b;
      ByteLenAppend(a[1..], b);
    } else {
      assert a + b == b;
    }
  }

  /** The size a match is reported with: its logical size when `--logical` is set, else its disk usage. */
  function SizeOf(disk: Disk, opts: Options, path: string): int
  {
    if opts.logical then disk.logicalSize(path) else disk.diskUsage(path)
  }

  /** Whether a match is labelled a symlink match: `Lstat` reports the symlink bit. A failed `Lstat` counts
      as not a symlink. */
  function SymlinkBit(lstat: Option<bool>): (symlink: bool)
    ensures symlink <==> lstat == Some(true)
  {
    lstat.Some? && lstat.value
  }

  /** The label in front of a match's line. */
  function Label(symlink: bool): string
  {
    if symlink then "• Symlink match " else "• Match "
  }

  /** The uncoloured line of a match, whose byte length sets the column width. */
  function PlainLine(appName: string, path: string, symlink: bool): string
  {
    Label(symlink) + appName + " FOUND at: " + path
  }

  /** The printed line: the application name in colour 2 and the path in colour 3. */
  function ColouredLine(appName: string, path: string, symlink: bool): string
  {
    Label(symlink) + ApplyColor(appName, "2") + " FOUND at: " + ApplyColor(path, "3")
  }

  /** Stripping the colour codes from a printed line gives its plain line back when neither the name nor
      the path holds an escape character. */
  lemma StripColouredLine(appName: string, path: string, symlink: bool)
    requires ESC !in appName && ESC !in path
    ensures StripColor(ColouredLine(appName, path, symlink)) == PlainLine(appName, path, symlink)
  {
    assert ESC !in Label(symlink) && ESC !in " FOUND at: ";
    StripTwoColoured(Label(symlink), appName, "2", " FOUND at: ", path, "3");
  }

  /** The record kept for one match. */
  function MetaOf(disk: Disk, appName: string, opts: Options, path: string): MatchMeta
  {
    MatchMeta(path, ColouredLine(appName, path, SymlinkBit(disk.lstat(path))), SizeOf(disk, opts, path))
  }

  /** The byte width of one match's plain line. */
  function WidthOf(disk: Disk, appName: string, path: string): nat
  {
    ByteLen(PlainLine(appName, path, SymlinkBit(disk.lstat(path))))
  }

  /** The records of the matches, in match order. */
  function MetasOf(disk: Disk, appName: string, opts: Options, matches: seq<string>): (metas: seq<MatchMeta>)
    ensures |metas| == |matches|
  {
    if |matches| == 0 then []
    else MetasOf(disk, appName, opts, matches[..|matches| - 1]) + [MetaOf(disk, appName, opts, matches[|matches| - 1])]
  }

  /** The i-th record is the record of the i-th match. */
  lemma {:induction false} MetasOfIndex(disk: Disk, appName: string, opts: Options, matches: seq<string>, i: int)
    requires 0 <= i < |matches|
    ensures MetasOf(disk, appName, opts, matches)[i] == MetaOf(disk, appName, opts, matches[i])
    decreases |matches|
  {
    if i < |matches| - 1 {
      var prefix := matches[..|matches| - 1];
      MetasOfIndex(disk, appName, opts, prefix, i);
      assert matches[i] == prefix[i];
    }
  }

  /** The sum of the sizes of the matches. */
  function TotalSize(disk: Disk, opts: Options, matches: seq<string>): int
  {
    if |matches| == 0 then 0 else TotalSize(disk, opts, matches[..|matches| - 1]) + SizeOf(disk, opts, matches[|matches| - 1])
  }

  /** The widest plain line among the matches, 0 for none. */
  function MaxWidth(disk: Disk, appName: string, matches: seq<string>): nat
  {
    if |matches| == 0 then 0
    else
      var w0 := MaxWidth(disk, appName, matches[..|matches| - 1]);
      var last := WidthOf(disk, appName, matches[|matches| - 1]);
      if last > w0 then last else w0
  }

  /** The width kept is that of the widest plain line: no line is wider, and some line is exactly as wide. */
  lemma {:induction false} MaxWidthIsMax(disk: Disk, appName: string, matches: seq<string>)
    ensures var w := MaxWidth(disk, appName, matches);
      (forall i :: 0 <= i < |matches| ==> WidthOf(disk, appName, matches[i]) <= w)
      && (|matches| > 0 ==> exists i :: 0 <= i < |matches| && WidthOf(disk, appName, matches[i]) == w)
      && (|matches| == 0 ==> w == 0)
    decreases |matches|
  {
    if |matches| > 0 {
      var prefix := matches[..|matches| - 1];
      MaxWidthIsMax(disk, appName, prefix);
      assert forall i :: 0 <= i < |prefix| ==> matches[i] == prefix[i];
      if MaxWidth(disk, appName, matches) != WidthOf(disk, appName, matches[|matches| - 1]) {
        var j :| 0 <= j < |prefix| && WidthOf(disk, appName, prefix[j]) == MaxWidth(disk, appName, prefix);
        assert WidthOf(disk, appName, matches[j]) == MaxWidth(disk, appName, matches);
      }
    }
  }

  /** The matches sorted by size, largest first, equal sizes in input order: `sort.SliceStable`. */
  function SortBySize(metas: seq<MatchMeta>): seq<MatchMeta>
  {
    if |metas| == 0 then [] else Insert(metas[0], SortBySize(metas[1..]))
  }

  /** Places `m` in front of the first entry no larger than it. */
  function Insert(m: MatchMeta, sorted: seq<MatchMeta>): seq<MatchMeta>
  {
    if |sorted| == 0 || m.size >= sorted[0].size then [m] + sorted else [sorted[0]] + Insert(m, sorted[1..])
  }

  predicate SortedDescending(metas: seq<MatchMeta>)
  {
    forall i, j :: 0 <= i < j < |metas| ==> metas[i].size >= metas[j].size
  }

  /** The entries of a given size, in order. */
  function OfSize(metas: seq<MatchMeta>, size: int): seq<MatchMeta>
  {
    if |metas| == 0 then []
    else (if metas[0].size == size then [metas[0]] else []) + OfSize(metas[1..], size)
  }

  /** Inserting adds exactly the one entry. */
  lemma {:induction false} InsertMultiset(m: MatchMeta, sorted: seq<MatchMeta>)
    ensures multiset(Insert(m, sorted)) == multiset(sorted) + multiset{m}
    decreases |sorted|
  {
    if |sorted| > 0 && m.size < sorted[0].size {
      InsertMultiset(m, sorted[1..]);
      assert sorted == [sorted[0]] + sorted[1..];
    }
  }

  /** Inserting into a list sorted by size keeps it sorted. */
  lemma {:induction false} InsertSorted(m: MatchMeta, sorted: seq<MatchMeta>)
    requires SortedDescending(sorted)
    ensures SortedDescending(Insert(m, sorted))
    decreases |sorted|
  {
    if |sorted| > 0 && m.size < sorted[0].size {
      var rest := Insert(m, sorted[1..]);
      InsertSorted(m, sorted[1..]);
      InsertMultiset(m, sorted[1..]);
      var r := [sorted[0]] + rest;
      forall j | 0 < j < |r|
        ensures r[0].size >= r[j].size
      {
        assert r[j] == rest[j - 1];
        assert rest[j - 1] in multiset(rest);
        assert rest[j - 1] == m || rest[j - 1] in multiset(sorted[1..]);
      }
    }
  }

  /** The entries of a size in a list with one more entry in front. */
  lemma OfSizeCons(x: MatchMeta, rest: seq<MatchMeta>, size: int)
    ensures OfSize([x] + rest, size) == (if x.size == size then [x] else []) + OfSize(rest, size)
  {
    assert ([x] + rest)[1..] == rest;
  }

  /** Inserting puts the new entry first among those of its size: it goes in front of the first entry no
      larger than it, so every entry of its size ahead of it would have been larger. */
  lemma {:induction false} InsertOfSize(m: MatchMeta, sorted: seq<MatchMeta>, size: int)
    ensures OfSize(Insert(m, sorted), size) == (if m.size == size then [m] else []) + OfSize(sorted, size)
    decreases |sorted|
  {
    if |sorted| == 0 || m.size >= sorted[0].size {
      OfSizeCons(m, sorted, size);
    } else {
      var first, rest := sorted[0], sorted[1..];
      InsertOfSize(m, rest, size);
      OfSizeCons(first, Insert(m, rest), size);
      OfSizeCons(first, rest, size);
      assert sorted == [first] + rest;
    }
  }

  /** The sort returns the same entries, sorted by size, largest first, and keeps the input order of the
      entries of each size: it is stable. */
  lemma {:induction false} SortBySizeProperties(metas: seq<MatchMeta>, size: int)
    ensures SortedDescending(SortBySize(metas))
    ensures multiset(SortBySize(metas)) == multiset(metas)
    ensures OfSize(SortBySize(metas), size) == OfSize(metas, size)
    decreases |metas|
  {
    if |metas| > 0 {
      SortBySizeProperties(metas[1..], size);
      InsertSorted(metas[0], SortBySize(metas[1..]));
      InsertMultiset(metas[0], SortBySize(metas[1..]));
      InsertOfSize(metas[0], SortBySize(metas[1..]), size);
      assert metas == [metas[0]] + metas[1..];
    }
  }

  /** The report for a list of matches. */
  function PeekReportOf(disk: Disk, matches: seq<string>, appName: string, opts: Options): PeekReport
  {
    if |matches| == 0 then NoMatches(appName)
    else Summary(appName, |matches|, TotalSize(disk, opts, matches), MaxWidth(disk, appName, matches),
                 SortBySize(MetasOf(disk, appName, opts, matches)))
  }

  /** One more match adds its size to the total, its width to the maximum and its record to the list. */
  lemma PeekStep(disk: Disk, matches: seq<string>, appName: string, opts: Options, k: int)
    requires 0 <= k < |matches|
    ensures TotalSize(disk, opts, matches[..k + 1]) == TotalSize(disk, opts, matches[..k]) + SizeOf(disk, opts, matches[k])
    ensures var w0, w := MaxWidth(disk, appName, matches[..k]), WidthOf(disk, appName, matches[k]);
      MaxWidth(disk, appName, matches[..k + 1]) == if w > w0 then w else w0
    ensures MetasOf(disk, appName, opts, matches[..k + 1])
         == MetasOf(disk, appName, opts, matches[..k]) + [MetaOf(disk, appName, opts, matches[k])]
  {
    var next := matches[..k + 1];
    assert next[..|next| - 1] == matches[..k] && next[|next| - 1] == matches[k];
  }

  /** The loop of `GeneratePeekReport`: the total, the count, the widest plain line and the records of the
      matches, in match order. */
  method AccumulateMatches(disk: Disk, matches: seq<string>, appName: string, opts: Options)
    returns (totalSize: int, numFiles: int, maxLineWidth: nat, metas: seq<MatchMeta>)
    ensures numFiles == |matches| && totalSize == TotalSize(disk, opts, matches)
    ensures maxLineWidth == MaxWidth(disk, appName, matches) && metas == MetasOf(disk, appName, opts, matches)
  {
    totalSize, numFiles, maxLineWidth, metas := 0, 0, 0, [];
    for k := 0 to |matches|
      invariant numFiles == k
      invariant totalSize == TotalSize(disk, opts, matches[..k])
      invariant maxLineWidth == MaxWidth(disk, appName, matches[..k])
      invariant metas == MetasOf(disk, appName, opts, matches[..k])
    {
      var path := matches[k];
      var size := SizeOf(disk, opts, path);
      totalSize := totalSize + size;
      numFiles := numFiles + 1;
      var symlink := SymlinkBit(disk.lstat(path));
      var printLine := ColouredLine(appName, path, symlink);
      var printLineStripped := PlainLine(appName, path, symlink);
      if ByteLen(printLineStripped) > maxLineWidth {
        maxLineWidth := ByteLen(printLineStripped);
      }
      metas := metas + [MatchMeta(path, printLine, size)];
      PeekStep(disk, matches, appName, opts, k);
    }
    assert matches[..|matches|] == matches;
  }

  /** `GeneratePeekReport`: nothing but the count for no matches; otherwise the accumulated total, count,
      widest line and records, the records then sorted stably by size. */
  method GeneratePeekReport(disk: Disk, matches: seq<string>, appName: string, opts: Options) returns (report: PeekReport)
    ensures report == PeekReportOf(disk, matches, appName, opts)
  {
    if |matches| == 0 {
      return NoMatches(appName);
    }
    var totalSize, numFiles, maxLineWidth, metas := AccumulateMatches(disk, matches, appName, opts);
    metas := SortBySize(metas);
    report := Summary(appName, numFiles, totalSize, maxLineWidth, metas);
  }

  /** The run of spaces after a row's line: the column width less the byte length of the stripped line. */
  function Padding(maxLineWidth: nat, meta: MatchMeta): int
  {
    maxLineWidth - ByteLen(StripColor(meta.printLine))
  }

  /** The report has one row per match, the count is the number of matches, the total is their summed size,
      and every row's padding is non-negative and brings its line to the widest line's width, when the name
      and paths hold no escape character. */
  lemma PeekReportShape(disk: Disk, matches: seq<string>, appName: string, opts: Options)
    requires |matches| > 0
    requires ESC !in appName && forall i :: 0 <= i < |matches| ==> ESC !in matches[i]
    ensures var r := PeekReportOf(disk, matches, appName, opts);
      r.Summary? && r.numFiles == |r.metas| == |matches| && r.totalSize == TotalSize(disk, opts, matches)
      && (forall i :: 0 <= i < |r.metas| ==>
            (0 <= Padding(r.maxLineWidth, r.metas[i])
             && ByteLen(StripColor(r.metas[i].printLine)) + Padding(r.maxLineWidth, r.metas[i]) == r.maxLineWidth))
  {
    var r := PeekReportOf(disk, matches, appName, opts);
    var unsorted := MetasOf(disk, appName, opts, matches);
    SortBySizeProperties(unsorted, 0);
    assert |r.metas| == |multiset(r.metas)| == |multiset(unsorted)| == |matches|;
    forall i | 0 <= i < |r.metas|
      ensures 0 <= Padding(r.maxLineWidth, r.metas[i])
    {
      assert r.metas[i] in multiset(unsorted);
      var j :| 0 <= j < |unsorted| && unsorted[j] == r.metas[i];
      MetasOfIndex(disk, appName, opts, matches, j);
      MaxWidthIsMax(disk, appName, matches);
      StripColouredLine(appName, matches[j], SymlinkBit(disk.lstat(matches[j])));
    }
  }

  /** A symlink match and an ordinary match are labelled differently. */
  lemma LabelsDiffer()
    ensures Label(true) != Label(false)
  {
    assert Label(true)[2] == 'S' && Label(false)[2] == 'M';
  }

  /** `os.Lstat`'s result used as written: the mode of a nil `FileInfo` is read after a failed `Lstat`,
      which panics. */
  function SymlinkBitAsWritten(lstat: Option<bool>): (r: Result<bool, string>)
    ensures r.Err? <==> lstat.None?
  {
    if lstat.None? then Err("nil pointer dereference") else Ok(lstat.value)
  }

  /** A match whose `Lstat` fails panics the report as written; the corrected reading labels it as an
      ordinary match and agrees with the written one wherever that one does not panic. */
  lemma LstatFailurePanics(lstat: Option<bool>)
    ensures SymlinkBitAsWritten(None).Err?
    ensures SymlinkBitAsWritten(lstat).Ok? ==> SymlinkBit(lstat) == SymlinkBitAsWritten(lstat).value
    ensures !SymlinkBit(None)
  {
  }
}
