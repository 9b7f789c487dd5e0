/**
  What an AdapterRemoval settings file means once it is split into blocks:
  the three supported variants and their column layouts, the classifier that
  reads the variant off the `Length distribution` header, the four trimming
  statistics and the rows of the length distribution.
 */
module AdapterRemovalFormat {
  import opened Wrappers
  import opened PyText
  import SettingsBlocks

  const LengthDistribution: string := "Length distribution"
  const TrimmingStatistics: string := "Trimming statistics"

  datatype ReadType = Single | Paired

  /** The three file variants the module handles (single-end collapsed is rejected). */
  datatype Variant = SingleEnd | PairedNoncollapsed | PairedCollapsed

  /** The per-length count categories, one per distribution column. */
  datatype Category = Mate1 | Mate2 | Singleton | Collapsed | CollapsedTruncated | Discarded | All

  /**
    Why a file is not parsed. `Unsupported` is the `UserWarning` the per-file
    loop catches (the file is skipped); the others are the `KeyError`,
    `IndexError` and `ValueError` nobody catches.
   */
  datatype Failure = Unsupported | MissingBlock(name: string) | BadIndex | BadNumber

  function IsPaired(v: Variant): bool
  {
    v != SingleEnd
  }

  function IsCollapsed(v: Variant): bool
  {
    v == PairedCollapsed
  }

  /** The variant a read type and collapsed flag stand for, if supported. */
  function VariantOf(rt: ReadType, collapsed: bool): (r: Option<Variant>)
    ensures r.None? <==> rt == Single && collapsed
    ensures r.Some? ==> (IsPaired(r.value) <==> rt == Paired) && (IsCollapsed(r.value) <==> collapsed)
  {
    match rt
    case Single => if collapsed then None else Some(SingleEnd)
    case Paired => Some(if collapsed then PairedCollapsed else PairedNoncollapsed)
  }

  /** Columns 1.. of a distribution row, in order, per variant. */
  function Layout(v: Variant): (r: seq<Category>)
    ensures |r| + 1 == RowWidth(v)
  {
    match v
    case SingleEnd => [Mate1, Discarded, All]
    case PairedNoncollapsed => [Mate1, Mate2, Singleton, Discarded, All]
    case PairedCollapsed => [Mate1, Mate2, Singleton, Collapsed, CollapsedTruncated, Discarded, All]
  }

  /** The column AdapterRemoval heads with each category. */
  function HeaderLabel(c: Category): string
  {
    match c
    case Mate1 => "Mate1"
    case Mate2 => "Mate2"
    case Singleton => "Singleton"
    case Collapsed => "Collapsed"
    case CollapsedTruncated => "CollapsedTruncated"
    case Discarded => "Discarded"
    case All => "All"
  }

  function HeaderLabels(cs: seq<Category>): (r: seq<string>)
    ensures |r| == |cs| && forall i :: 0 <= i < |cs| ==> r[i] == HeaderLabel(cs[i])
  {
    if cs == [] then [] else [HeaderLabel(cs[0])] + HeaderLabels(cs[1..])
  }

  /** The header row the tool writes for a variant. */
  function CanonicalHeader(v: Variant): seq<string>
  {
    ["Length"] + HeaderLabels(Layout(v))
  }

  const Categories: set<Category> := {Mate1, Mate2, Singleton, Collapsed, CollapsedTruncated, Discarded, All}

  lemma CategoryCases(c: Category)
    ensures c == Mate1 || c == Mate2 || c == Singleton || c == Collapsed || c == CollapsedTruncated || c == Discarded || c == All
  {
  }

  lemma EveryCategory()
    ensures forall c: Category :: c in Categories
  {
    forall c: Category ensures c in Categories {
      CategoryCases(c);
    }
  }

  /** Whether variant `v` has a map for category `c`. */
  predicate HasCategory(v: Variant, c: Category)
  {
    match v
    case SingleEnd => c == Mate1 || c == Discarded || c == All
    case PairedNoncollapsed => c != Collapsed && c != CollapsedTruncated
    case PairedCollapsed => true
  }

  /** The row column `set_len_dist` reads category `c` from in variant `v` (column 0 is the length). */
  function Column(v: Variant, c: Category): (r: nat)
    requires HasCategory(v, c)
    ensures 1 <= r < RowWidth(v)
  {
    match c
    case Mate1 => 1
    case Mate2 => 2
    case Singleton => 3
    case Collapsed => 4
    case CollapsedTruncated => 5
    case Discarded => if v == SingleEnd then 2 else if v == PairedNoncollapsed then 4 else 6
    case All => if v == SingleEnd then 3 else if v == PairedNoncollapsed then 5 else 7
  }

  /**
    The column table agrees with the layout: a variant's categories are those
    of its layout, each read from the column one past its place in the layout,
    so the columns used are exactly 1 to the layout's length.
   */
  lemma LayoutColumns(v: Variant)
    ensures forall c :: HasCategory(v, c) <==> c in Layout(v)
    ensures forall c :: HasCategory(v, c) ==> 1 <= Column(v, c) <= |Layout(v)| && Layout(v)[Column(v, c) - 1] == c
    ensures forall k :: 0 <= k < |Layout(v)| ==> HasCategory(v, Layout(v)[k]) && Column(v, Layout(v)[k]) == k + 1
  {
    forall c ensures HasCategory(v, c) <==> c in Layout(v) {
      match v
      case SingleEnd => assert Layout(v) == [Mate1, Discarded, All];
      case PairedNoncollapsed => assert Layout(v) == [Mate1, Mate2, Singleton, Discarded, All];
      case PairedCollapsed =>
        assert Layout(v) == [Mate1, Mate2, Singleton, Collapsed, CollapsedTruncated, Discarded, All];
        CategoryCases(c);
    }
  }

  /** The category at layout position `k` is read from column `k + 1`. */
  lemma ColumnOfLayout(v: Variant, k: nat)
    requires k < |Layout(v)|
    ensures HasCategory(v, Layout(v)[k]) && Column(v, Layout(v)[k]) == k + 1
  {
    LayoutColumns(v);
  }

  /** A category of the variant sits in the layout just before its column. */
  lemma LayoutOfColumn(v: Variant, c: Category)
    requires HasCategory(v, c)
    ensures 1 <= Column(v, c) <= |Layout(v)| && Layout(v)[Column(v, c) - 1] == c
  {
    LayoutColumns(v);
  }

  /** The tab-separated fields of a line, `line.rstrip('\n').split('\t')`. */
  function Fields(line: string): (r: seq<string>)
    ensures |r| >= 1
  {
    Split(SettingsBlocks.Chomp(line), "\t")
  }

  /**
    The `set_ar_type` classification of a `Length distribution` block: paired
    exactly when header column 2 is `Mate2`, collapsed exactly when column -3
    is `CollapsedTruncated`; single-end and collapsed together is rejected;
    a missing header line or a header of fewer than three columns is an
    `IndexError`.
   */
  function Classify(lenDist: seq<string>): (r: Result<Variant, Failure>)
    ensures r.Err? ==> r.error == BadIndex || r.error == Unsupported
    ensures r == Err(BadIndex) <==> |lenDist| == 0 || |Fields(lenDist[0])| < 3
    ensures r.Ok? ==> var h := Fields(lenDist[0]);
      (IsPaired(r.value) <==> h[2] == "Mate2") && (IsCollapsed(r.value) <==> h[|h| - 3] == "CollapsedTruncated")
    ensures r == Err(Unsupported) <==>
      |lenDist| > 0 && var h := Fields(lenDist[0]);
      |h| >= 3 && h[2] != "Mate2" && h[|h| - 3] == "CollapsedTruncated"
  {
    if |lenDist| == 0 then Err(BadIndex)
    else
      var h := Fields(lenDist[0]);
      if |h| < 3 then Err(BadIndex)
      else
        var rt := if h[2] == "Mate2" then Paired else Single;
        match VariantOf(rt, h[|h| - 3] == "CollapsedTruncated")
        case None => Err(Unsupported)
        case Some(v) => Ok(v)
  }

  /** The number of columns a row of the variant must have: the length and one per category. */
  function RowWidth(v: Variant): nat
  {
    match v
    case SingleEnd => 4
    case PairedNoncollapsed => 6
    case PairedCollapsed => 8
  }

  /** The header AdapterRemoval writes for a variant classifies as that variant. */
  lemma ClassifyCanonicalHeader(v: Variant, rows: seq<string>)
    ensures Classify([Join(CanonicalHeader(v), "\t")] + rows) == Ok(v)
  {
    var line := Join(CanonicalHeader(v), "\t");
    CanonicalHeaderFields(v);
    assert ([line] + rows)[0] == line;
    ClassifyHeader([line] + rows, v);
  }

  /** A distribution block whose header has the columns of a variant classifies as that variant. */
  lemma ClassifyHeader(lenDist: seq<string>, v: Variant)
    requires |lenDist| > 0 && Fields(lenDist[0]) == CanonicalHeader(v)
    ensures Classify(lenDist) == Ok(v)
  {
    var h := CanonicalHeader(v);
    var cs := Layout(v);
    assert |h| == |cs| + 1 && h[2] == HeaderLabel(cs[1]) && h[|h| - 3] == HeaderLabel(cs[|cs| - 3]);
    match v
    case SingleEnd =>
      assert h[2][0] != "Mate2"[0];
      assert |h[|h| - 3]| != |"CollapsedTruncated"|;
    case PairedNoncollapsed =>
      assert |h[|h| - 3]| != |"CollapsedTruncated"|;
    case PairedCollapsed =>
  }

  /** Splitting the joined canonical header gives back its columns. */
  lemma CanonicalHeaderFields(v: Variant)
    ensures Fields(Join(CanonicalHeader(v), "\t")) == CanonicalHeader(v)
  {
    var h := CanonicalHeader(v);
    var line := Join(h, "\t");
    forall i | 0 <= i < |h| ensures '\t' !in h[i] && '\n' !in h[i] {
      if i == 0 {
        assert h[i] == "Length";
        assert forall j :: 0 <= j < |h[i]| ==> h[i][j] != '\t' && h[i][j] != '\n';
      } else {
        HeaderLabelPlain(Layout(v)[i - 1]);
      }
    }
    SplitJoin(h, '\t');
    NoNewlineInJoin(h);
    assert SettingsBlocks.Chomp(line) == line;
  }

  lemma HeaderLabelPlain(c: Category)
    ensures '\t' !in HeaderLabel(c) && '\n' !in HeaderLabel(c)
  {
    var l := HeaderLabel(c);
    assert forall j :: 0 <= j < |l| ==> l[j] != '\t' && l[j] != '\n';
  }

  /** In the canonical header each category heads the column its counts are read from. */
  lemma CanonicalHeaderColumns(v: Variant, c: Category)
    requires HasCategory(v, c)
    ensures Column(v, c) < |CanonicalHeader(v)| && CanonicalHeader(v)[Column(v, c)] == HeaderLabel(c)
  {
    LayoutColumns(v);
  }

  lemma {:induction false} NoNewlineInJoin(h: seq<string>)
    requires forall i :: 0 <= i < |h| ==> '\n' !in h[i]
    ensures '\n' !in Join(h, "\t")
    decreases |h|
  {
    if |h| > 1 {
      NoNewlineInJoin(h[1..]);
    }
  }

  /** The trimming totals of one file (`result_data`). */
  datatype Stats = Stats(total: int, unaligned: int, aligned: int, readsTotal: int, retained: int, discarded: int)

  /** Python's `lines[pos]`, where a negative position counts from the end. */
  function At(lines: seq<string>, pos: int): (r: Option<string>)
    ensures r.Some? <==> -|lines| <= pos < |lines|
    ensures 0 <= pos < |lines| ==> r == Some(lines[pos])
    ensures -|lines| <= pos < 0 ==> r == Some(lines[|lines| + pos])
  {
    if 0 <= pos < |lines| then Some(lines[pos])
    else if -|lines| <= pos < 0 then Some(lines[|lines| + pos])
    else None
  }

  /** `int(line.split(': ')[1])`. */
  function StatValue(line: string): (r: Result<int, Failure>)
    ensures r.Err? ==> r.error == BadIndex || r.error == BadNumber
  {
    var parts := Split(line, ": ");
    if |parts| < 2 then Err(BadIndex)
    else match ParseInt(parts[1])
      case None => Err(BadNumber)
      case Some(n) => Ok(n)
  }

  /** A line without `': '` has no second piece, so reading it fails with an index error. */
  lemma StatValueUnlabelled(line: string)
    requires NoSeparatorBefore(line, ": ", |line|)
    ensures StatValue(line) == Err(BadIndex)
  {
    SplitNone(line, ": ");
  }

  /**
    On a line `name: value` whose name and value hold no colon, the number
    read is `int(value)`, and a value that is not a numeral is a number error.
   */
  lemma StatValueLabelled(name: string, value: string)
    requires ':' !in name && ':' !in value
    ensures StatValue(name + ": " + value) == if ParseInt(value).Some? then Ok(ParseInt(value).value) else Err(BadNumber)
  {
    var line := name + ": " + value;
    assert NoSeparatorBefore(line, ": ", |name|) by {
      forall j | 0 <= j < |name|
        ensures !OccursAt(line, ": ", j)
      {
        assert line[j] == name[j];
        if j + 2 <= |line| {
          assert line[j..j + 2][0] == line[j];
        }
      }
    }
    SplitAtFirst(name, ": ", value);
    assert NoSeparatorBefore(value, ": ", |value|) by {
      forall j | 0 <= j < |value|
        ensures !OccursAt(value, ": ", j)
      {
        if j + 2 <= |value| {
          assert value[j..j + 2][0] == value[j];
        }
      }
    }
    SplitNone(value, ": ");
  }

  /** A statistics line written as `name: str(n)` reads back as `n`. */
  lemma StatValueOfPrinted(name: string, n: int)
    requires ':' !in name
    ensures StatValue(name + ": " + IntToString(n)) == Ok(n)
  {
    IntToStringChars(n);
    StatValueLabelled(name, IntToString(n));
    ParseIntOfIntToString(n);
  }

  /** The value on the statistics line at `pos`. */
  function StatAt(lines: seq<string>, pos: int): (r: Result<int, Failure>)
    ensures r.Err? ==> r.error == BadIndex || r.error == BadNumber
  {
    match At(lines, pos)
    case None => Err(BadIndex)
    case Some(line) => StatValue(line)
  }

  /** The four fields `set_trim_stat` reads, with the line each is read from. */
  datatype StatField = Total | Unaligned | Aligned | Retained

  const Pattern: seq<(StatField, int)> := [(Total, 0), (Unaligned, 1), (Aligned, 2), (Retained, -3)]

  /**
    `set_trim_stat`: total, unaligned, aligned and retained are the numbers
    on lines 0, 1, 2 and -3; the read total doubles for paired files and the
    discarded count is what the read total keeps back from the retained one.
   */
  function TrimStats(lines: seq<string>, paired: bool): (r: Result<Stats, Failure>)
    ensures r.Ok? <==> |lines| >= 3 && StatAt(lines, 0).Ok? && StatAt(lines, 1).Ok?
                       && StatAt(lines, 2).Ok? && StatAt(lines, -3).Ok?
    ensures r.Ok? ==>
      && r.value.total == StatAt(lines, 0).value
      && r.value.unaligned == StatAt(lines, 1).value
      && r.value.aligned == StatAt(lines, 2).value
      && r.value.retained == StatAt(lines, -3).value
      && r.value.readsTotal == (if paired then 2 * r.value.total else r.value.total)
      && r.value.discarded == r.value.readsTotal - r.value.retained
    ensures r.Err? ==> r.error == BadIndex || r.error == BadNumber
  {
    var total :- StatAt(lines, 0);
    var unaligned :- StatAt(lines, 1);
    var aligned :- StatAt(lines, 2);
    var retained :- StatAt(lines, -3);
    var readsTotal := if paired then total * 2 else total;
    Ok(Stats(total, unaligned, aligned, readsTotal, retained, readsTotal - retained))
  }

  /** The record `TrimStats` builds once the four numbers are known. */
  lemma TrimStatsOfValues(lines: seq<string>, paired: bool, total: int, unaligned: int, aligned: int, retained: int)
    requires StatAt(lines, 0) == Ok(total) && StatAt(lines, 1) == Ok(unaligned)
    requires StatAt(lines, 2) == Ok(aligned) && StatAt(lines, -3) == Ok(retained)
    ensures var readsTotal := if paired then 2 * total else total;
      TrimStats(lines, paired) == Ok(Stats(total, unaligned, aligned, readsTotal, retained, readsTotal - retained))
  {
  }

  /** The fields are read in the order of the pattern, so the first unreadable one decides the error. */
  lemma TrimStatsFirstError(lines: seq<string>, paired: bool, k: nat)
    requires k < |Pattern|
    requires forall j :: 0 <= j < k ==> StatAt(lines, Pattern[j].1).Ok?
    requires StatAt(lines, Pattern[k].1).Err?
    ensures TrimStats(lines, paired) == Err(StatAt(lines, Pattern[k].1).error)
  {
    assert Pattern[0].1 == 0 && Pattern[1].1 == 1 && Pattern[2].1 == 2 && Pattern[3].1 == -3;
    if k > 0 { assert StatAt(lines, Pattern[0].1).Ok?; }
    if k > 1 { assert StatAt(lines, Pattern[1].1).Ok?; }
    if k > 2 { assert StatAt(lines, Pattern[2].1).Ok?; }
  }

  /** Every field of a row as an integer, or `None` if one is not a numeral. */
  function ParseFields(fields: seq<string>): (r: Option<seq<int>>)
    ensures r.Some? ==> |r.value| == |fields|
  {
    if fields == [] then Some([])
    else match (ParseInt(fields[0]), ParseFields(fields[1..]))
      case (Some(n), Some(ns)) => Some([n] + ns)
      case _ => None
  }

  /** Converted fields hold the number of each field, in order. */
  lemma {:induction false} ParseFieldsValues(fields: seq<string>)
    requires ParseFields(fields).Some?
    ensures forall i :: 0 <= i < |fields| ==> ParseInt(fields[i]) == Some(ParseFields(fields).value[i])
    decreases |fields|
  {
    if fields != [] {
      var rest := fields[1..];
      ParseFieldsValues(rest);
      var ns := ParseFields(rest).value;
      var r := ParseFields(fields).value;
      assert r == [ParseInt(fields[0]).value] + ns;
      forall i | 0 < i < |fields| ensures ParseInt(fields[i]) == Some(r[i]) {
        assert fields[i] == rest[i - 1] && r[i] == ns[i - 1];
      }
    }
  }

  /** Conversion fails only at a field that is not a numeral. */
  lemma {:induction false} ParseFieldsFails(fields: seq<string>)
    requires ParseFields(fields).None?
    ensures exists i :: 0 <= i < |fields| && ParseInt(fields[i]).None?
    decreases |fields|
  {
    var rest := fields[1..];
    if ParseInt(fields[0]).Some? {
      ParseFieldsFails(rest);
      var j :| 0 <= j < |rest| && ParseInt(rest[j]).None?;
      assert fields[j + 1] == rest[j];
    }
  }

  /**
    One distribution row, `map(int, line.rstrip('\n').split('\t'))`, checked
    to be wide enough for the variant's layout: every field must be an
    integer (`ValueError` otherwise), then the layout's columns must exist
    (`IndexError` otherwise).
   */
  function ParseRow(line: string, v: Variant): (r: Result<seq<int>, Failure>)
    ensures r.Ok? ==> |r.value| == |Fields(line)| && |r.value| >= RowWidth(v)
    ensures r.Err? ==> r.error == BadNumber || r.error == BadIndex
    ensures r == Err(BadIndex) ==> |Fields(line)| < RowWidth(v)
  {
    match ParseFields(Fields(line))
    case None => Err(BadNumber)
    case Some(row) => if |row| >= RowWidth(v) then Ok(row) else Err(BadIndex)
  }

  /**
    A converted row holds the numbers of the line's fields, in order; the
    conversion fails with `ValueError` exactly when some field is not a numeral.
   */
  lemma ParseRowFields(line: string, v: Variant)
    ensures var r := ParseRow(line, v);
      && (r.Ok? ==> forall i :: 0 <= i < |r.value| ==> ParseInt(Fields(line)[i]) == Some(r.value[i]))
      && (r == Err(BadNumber) <==> exists i :: 0 <= i < |Fields(line)| && ParseInt(Fields(line)[i]).None?)
  {
    var f := Fields(line);
    if ParseFields(f).Some? {
      ParseFieldsValues(f);
    } else {
      ParseFieldsFails(f);
    }
  }

  /** All rows of a block after its header, the first bad one deciding the error. */
  function ParseRows(lines: seq<string>, v: Variant): (r: Result<seq<seq<int>>, Failure>)
    ensures r.Ok? ==> |r.value| == |lines|
    decreases |lines|
  {
    if lines == [] then Ok([])
    else
      var init := lines[..|lines| - 1];
      var last := ParseRow(lines[|lines| - 1], v);
      match ParseRows(init, v)
      case Err(e) => Err(e)
      case Ok(rows) => if last.Err? then Err(last.error) else Ok(rows + [last.value])
  }

  /** A block that converts has one row per line, each that line's row. */
  lemma ParseRowsOk(lines: seq<string>, v: Variant)
    requires ParseRows(lines, v).Ok?
    ensures forall i :: 0 <= i < |lines| ==> ParseRow(lines[i], v) == Ok(ParseRows(lines, v).value[i])
  {
    forall i | 0 <= i < |lines| ensures ParseRow(lines[i], v) == Ok(ParseRows(lines, v).value[i]) {
      ParseRowsAt(lines, v, i);
    }
  }

  /** The row at one position is the conversion of the line there. */
  lemma {:induction false} ParseRowsAt(lines: seq<string>, v: Variant, i: nat)
    requires i < |lines| && ParseRows(lines, v).Ok?
    ensures ParseRow(lines[i], v) == Ok(ParseRows(lines, v).value[i])
    decreases |lines|
  {
    var init := lines[..|lines| - 1];
    var last := ParseRow(lines[|lines| - 1], v);
    var rows := ParseRows(init, v).value;
    var all := rows + [last.value];
    assert ParseRows(lines, v) == Ok(all);
    if i < |init| {
      ParseRowsAt(init, v, i);
      assert lines[i] == init[i] && all[i] == rows[i];
    } else {
      assert all[i] == last.value;
    }
  }

  /** A block that fails has a row with that failure. */
  lemma {:induction false} ParseRowsError(lines: seq<string>, v: Variant)
    requires ParseRows(lines, v).Err?
    ensures exists i :: 0 <= i < |lines| && ParseRow(lines[i], v) == Err(ParseRows(lines, v).error)
    decreases |lines|
  {
    var init := lines[..|lines| - 1];
    if ParseRows(init, v).Err? {
      ParseRowsError(init, v);
      var i :| 0 <= i < |init| && ParseRow(init[i], v) == Err(ParseRows(init, v).error);
      assert lines[i] == init[i];
    } else {
      assert ParseRow(lines[|lines| - 1], v) == Err(ParseRows(lines, v).error);
    }
  }

  /** Converting one more line extends the converted rows by that line's row. */
  lemma ParseRowsSnoc(lines: seq<string>, v: Variant, i: nat, rows: seq<seq<int>>, row: seq<int>)
    requires i < |lines| && ParseRows(lines[..i], v) == Ok(rows) && ParseRow(lines[i], v) == Ok(row)
    ensures ParseRows(lines[..i + 1], v) == Ok(rows + [row])
  {
    assert lines[..i + 1][..i] == lines[..i];
  }

  /** Python's `lines[1:]`: the rows after the header. */
  function Body(lines: seq<string>): (r: seq<string>)
    ensures |lines| > 0 ==> r == lines[1..]
    ensures |lines| == 0 ==> r == []
  {
    if |lines| == 0 then [] else lines[1..]
  }

  /** The error of a block is that of its first bad row. */
  lemma {:induction false} ParseRowsFirstError(lines: seq<string>, v: Variant, i: nat)
    requires i < |lines| && ParseRows(lines[..i], v).Ok? && ParseRow(lines[i], v).Err?
    ensures ParseRows(lines, v) == Err(ParseRow(lines[i], v).error)
    decreases |lines|
  {
    if |lines| - 1 > i {
      var init := lines[..|lines| - 1];
      assert init[..i] == lines[..i] && init[i] == lines[i];
      ParseRowsFirstError(init, v, i);
    } else {
      assert lines[..|lines| - 1] == lines[..i];
    }
  }

  /** What a settings file amounts to. */
  datatype FileOutcome = Parsed(variant: Variant, stats: Stats, rows: seq<seq<int>>) | Skipped | Crashed(failure: Failure)

  /**
    `set_result_data` on the blocks of a file: the `Length distribution`
    block is looked up and classified first, so a rejected file goes no
    further; then the trimming statistics; then the distribution rows after
    the header.
   */
  function InterpretBlocks(blocks: SettingsBlocks.Blocks): (o: FileOutcome)
    ensures o.Skipped? <==> LengthDistribution in blocks && Classify(blocks[LengthDistribution]) == Err(Unsupported)
    ensures o.Parsed? ==>
      && LengthDistribution in blocks && TrimmingStatistics in blocks
      && Classify(blocks[LengthDistribution]) == Ok(o.variant)
      && TrimStats(blocks[TrimmingStatistics], IsPaired(o.variant)) == Ok(o.stats)
      && ParseRows(Body(blocks[LengthDistribution]), o.variant) == Ok(o.rows)
      && forall i :: 0 <= i < |o.rows| ==> |o.rows[i]| >= RowWidth(o.variant)
    ensures o.Parsed? <==>
      && LengthDistribution in blocks && TrimmingStatistics in blocks
      && Classify(blocks[LengthDistribution]).Ok?
      && TrimStats(blocks[TrimmingStatistics], IsPaired(Classify(blocks[LengthDistribution]).value)).Ok?
      && ParseRows(Body(blocks[LengthDistribution]), Classify(blocks[LengthDistribution]).value).Ok?
    ensures LengthDistribution !in blocks ==> o == Crashed(MissingBlock(LengthDistribution))
    ensures LengthDistribution in blocks && Classify(blocks[LengthDistribution]).Err?
              && Classify(blocks[LengthDistribution]).error != Unsupported
            ==> o == Crashed(Classify(blocks[LengthDistribution]).error)
    ensures LengthDistribution in blocks && Classify(blocks[LengthDistribution]).Ok?
            ==> o == InterpretClassified(blocks, Classify(blocks[LengthDistribution]).value)
  {
    if LengthDistribution !in blocks then Crashed(MissingBlock(LengthDistribution))
    else
      var lenDist := blocks[LengthDistribution];
      match Classify(lenDist)
      case Err(e) => if e == Unsupported then Skipped else Crashed(e)
      case Ok(v) => InterpretClassified(blocks, v)
  }

  /** The steps of `set_result_data` after the read type is known: statistics, then distribution. */
  function InterpretClassified(blocks: SettingsBlocks.Blocks, v: Variant): (o: FileOutcome)
    requires LengthDistribution in blocks
    ensures !o.Skipped?
    ensures o.Parsed? ==>
      && o.variant == v && TrimmingStatistics in blocks
      && TrimStats(blocks[TrimmingStatistics], IsPaired(v)) == Ok(o.stats)
      && ParseRows(Body(blocks[LengthDistribution]), v) == Ok(o.rows)
      && forall i :: 0 <= i < |o.rows| ==> |o.rows[i]| >= RowWidth(v)
    ensures TrimmingStatistics !in blocks ==> o == Crashed(MissingBlock(TrimmingStatistics))
    ensures TrimmingStatistics in blocks ==>
      var stats := TrimStats(blocks[TrimmingStatistics], IsPaired(v));
      var rows := ParseRows(Body(blocks[LengthDistribution]), v);
      && (stats.Err? ==> o == Crashed(stats.error))
      && (stats.Ok? && rows.Err? ==> o == Crashed(rows.error))
      && (stats.Ok? && rows.Ok? ==> o == Parsed(v, stats.value, rows.value))
  {
    if TrimmingStatistics !in blocks then Crashed(MissingBlock(TrimmingStatistics))
    else match TrimStats(blocks[TrimmingStatistics], IsPaired(v))
      case Err(e) => Crashed(e)
      case Ok(stats) =>
        match ParseRows(Body(blocks[LengthDistribution]), v)
        case Err(e) => Crashed(e)
        case Ok(rows) => ParseRowsOk(Body(blocks[LengthDistribution]), v); Parsed(v, stats, rows)
  }

  /** `parse_settings_file`: the blocks of the file's lines, interpreted. */
  function ParseFile(lines: seq<string>): FileOutcome
  {
    InterpretBlocks(SettingsBlocks.BlocksOf(lines))
  }
}
