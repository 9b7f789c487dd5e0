/**
  The AdapterRemoval module object: it reads every settings file handed to
  it, keeps each parsed record in the container of its variant, fills the
  per-sample length-distribution maps, and then appends its report sections
  in a fixed order. The fields are those the source's methods update.
 */
module AdapterRemoval {
  import opened Wrappers
  import opened SettingsBlocks
  import opened AdapterRemovalFormat
  import opened AdapterRemovalDist
  import opened FirstIndex

  /**
    The data of a plotting call: the records of a container for a bar
    graph, or one per-sample view per category for a line graph. The
    rendering is the host's and is not modelled.
   */
  datatype Plot =
    | BarGraph(data: map<string, Stats>)
    | LineGraph(series: seq<map<string, map<int, int>>>, labels: seq<Category>)

  datatype Chart = AlignmentPlot | RetainedPlot | LengthPlot

  /**
    One appended report section. Its display name, anchor, introductory text
    and plot configuration are fixed by the chart and the variant, and are
    given by the functions below.
   */
  datatype Section = Section(chart: Chart, variant: Variant, plot: Plot) {
    function Name(): string { SectionName(chart, variant) }
    function AnchorName(): string { Anchor(chart, variant) }
    function Intro(): string { Description(chart) }
    function PlotConfigId(): string { PlotId(chart, variant) }
  }

  function SectionName(chart: Chart, v: Variant): string
  {
    match (chart, v)
    case (AlignmentPlot, SingleEnd) => "Adapter Alignments Single-End"
    case (AlignmentPlot, PairedNoncollapsed) => "Adapter Alignments Paired-End Noncollapsed"
    case (AlignmentPlot, PairedCollapsed) => "Adapter Alignments Paired-End Collapsed"
    case (RetainedPlot, SingleEnd) => "Retained and Discarded Single-End"
    case (RetainedPlot, PairedNoncollapsed) => "Retained and Discarded Paired-End Noncollapsed"
    case (RetainedPlot, PairedCollapsed) => "Retained and Discarded Paired-End Collapsed"
    case (LengthPlot, SingleEnd) => "Lenght Distribution Single End"
    case (LengthPlot, PairedNoncollapsed) => "Lenght Distribution Paired End Noncollapsed"
    case (LengthPlot, PairedCollapsed) => "Lenght Distribution Paired End Collapsed"
  }

  function Anchor(chart: Chart, v: Variant): string
  {
    match (chart, v)
    case (AlignmentPlot, SingleEnd) => "ar_alignment_se"
    case (AlignmentPlot, PairedNoncollapsed) => "adapter_removal_alignment_penc"
    case (AlignmentPlot, PairedCollapsed) => "adapter_removal_alignment_pec"
    case (RetainedPlot, SingleEnd) => "adapter_removal_retained_plot_se"
    case (RetainedPlot, PairedNoncollapsed) => "adapter_removal_retained_plot_penc"
    case (RetainedPlot, PairedCollapsed) => "adapter_removal_retained_plot_pec"
    case (LengthPlot, SingleEnd) => "ar_lenght_count_se"
    case (LengthPlot, PairedNoncollapsed) => "ar_lenght_count_penc"
    case (LengthPlot, PairedCollapsed) => "ar_lenght_count_pec"
  }

  function Description(chart: Chart): string
  {
    match chart
    case AlignmentPlot => "<p>The proportions of reads with and without adapter.</p>"
    case RetainedPlot => "<p>The proportions of retained and discarded reads.</p>"
    case LengthPlot => "<p>The lenght distribution of reads after processing adapter alignment.</p>"
  }

  /** The `id` the chart's plot configuration carries for the variant. */
  function PlotId(chart: Chart, v: Variant): string
  {
    match (chart, v)
    case (AlignmentPlot, SingleEnd) => "ar_alignment_plot_se"
    case (AlignmentPlot, PairedNoncollapsed) => "ar_alignment_plot_penc"
    case (AlignmentPlot, PairedCollapsed) => "ar_alignment_plot_pec"
    case (RetainedPlot, SingleEnd) => "ar_retained_plot_se"
    case (RetainedPlot, PairedNoncollapsed) => "ar_retained_plot_penc"
    case (RetainedPlot, PairedCollapsed) => "ar_retained_plot_pec"
    case (LengthPlot, SingleEnd) => "ar_lenght_count_plot_se"
    case (LengthPlot, PairedNoncollapsed) => "ar_lenght_count_plot_penc"
    case (LengthPlot, PairedCollapsed) => "ar_lenght_count_plot_pec"
  }

  /** The two keys of the `paired` container, `'collapsed'` and `'noncollapsed'`. */
  datatype PairedKey = CollapsedKey | NoncollapsedKey

  /** The three record containers, `adapter_removal_data` with its `paired` level resolved. */
  datatype Store = Store(single: map<string, Stats>, noncollapsed: map<string, Stats>, collapsed: map<string, Stats>) {

    function Get(v: Variant): map<string, Stats>
    {
      match v
      case SingleEnd => single
      case PairedNoncollapsed => noncollapsed
      case PairedCollapsed => collapsed
    }

    /** The store with `name` mapped to `st` in the container of `v`, and no other change. */
    function Put(v: Variant, name: string, st: Stats): (r: Store)
      ensures r.Get(v) == Get(v)[name := st]
      ensures forall w :: w != v ==> r.Get(w) == Get(w)
    {
      match v
      case SingleEnd => this.(single := single[name := st])
      case PairedNoncollapsed => this.(noncollapsed := noncollapsed[name := st])
      case PairedCollapsed => this.(collapsed := collapsed[name := st])
    }
  }

  /** The section one chart method appends for variant `v`. */
  function ChartSection(chart: Chart, v: Variant, store: Store, arc: Dist): Section
  {
    match chart
    case LengthPlot => Section(chart, v, LineGraph(Series(arc, Layout(v), v), Layout(v)))
    case _ => Section(chart, v, BarGraph(store.Get(v)))
  }

  /** The line-graph data: one per-sample view per category, in the order given. */
  function Series(arc: Dist, cats: seq<Category>, v: Variant): (r: seq<map<string, map<int, int>>>)
    ensures |r| == |cats|
    ensures forall i :: 0 <= i < |cats| ==> r[i] == CategoryView(arc, cats[i], v)
  {
    if cats == [] then [] else [CategoryView(arc, cats[0], v)] + Series(arc, cats[1..], v)
  }

  /** The variants whose container holds at least one record, in emission order. */
  function Emitted(store: Store): (r: seq<Variant>)
  {
    (if store.single != map[] then [SingleEnd] else [])
    + (if store.noncollapsed != map[] then [PairedNoncollapsed] else [])
    + (if store.collapsed != map[] then [PairedCollapsed] else [])
  }

  /** What one chart method appends: a section per non-empty container, single-end first. */
  function ChartSections(chart: Chart, store: Store, arc: Dist): seq<Section>
  {
    (if store.single != map[] then [ChartSection(chart, SingleEnd, store, arc)] else [])
    + (if store.noncollapsed != map[] then [ChartSection(chart, PairedNoncollapsed, store, arc)] else [])
    + (if store.collapsed != map[] then [ChartSection(chart, PairedCollapsed, store, arc)] else [])
  }

  /** A chart method's sections are those of the emitted variants, one each, in order. */
  lemma ChartSectionsEmitted(chart: Chart, store: Store, arc: Dist)
    ensures |ChartSections(chart, store, arc)| == |Emitted(store)|
    ensures forall i :: 0 <= i < |Emitted(store)| ==>
      ChartSections(chart, store, arc)[i] == ChartSection(chart, Emitted(store)[i], store, arc)
  {
  }

  /** All sections: alignment charts, then retained charts, then length distributions. */
  function AllSections(store: Store, arc: Dist): seq<Section>
  {
    ChartSections(AlignmentPlot, store, arc) + ChartSections(RetainedPlot, store, arc)
    + ChartSections(LengthPlot, store, arc)
  }

  /**
    `len(single) == 0 and len(paired) == 0` and `len(single) + len(paired)`:
    the no-data test and the report count of the source, on the containers
    as the source nests them.
   */
  datatype Tally = NoReports | Reported(count: int)

  function TallyOf(single: map<string, Stats>, paired: map<PairedKey, map<string, Stats>>): Tally
  {
    if |single| == 0 && |paired| == 0 then NoReports else Reported(|single| + |paired|)
  }

  /** One file handed to the module: its sample name and its lines. */
  datatype LogFile = LogFile(sampleName: string, lines: seq<string>)

  datatype RunResult = Aborted(file: nat, failure: Failure) | NoData | Report(count: int, sections: seq<Section>)

  /** What the files processed so far have left in the containers and the distribution maps. */
  datatype Accum = Accum(store: Store, arc: Dist)

  function EmptyStore(): Store
  {
    Store(map[], map[], map[])
  }

  /** The effect of one file that did not crash. */
  function Absorb(acc: Accum, f: LogFile): Accum
  {
    match ParseFile(f.lines)
    case Parsed(v, st, rows) => Accum(acc.store.Put(v, f.sampleName, st), ApplyRows(acc.arc, v, f.sampleName, rows))
    case _ => acc
  }

  /**
    A parsed record is stored under its sample name in exactly one container,
    that of its variant, and its rows go to that sample's maps; a rejected
    file changes nothing.
   */
  lemma AbsorbEffect(acc: Accum, f: LogFile)
    ensures var o := ParseFile(f.lines);
      var r := Absorb(acc, f);
      && (o.Parsed? ==>
            && r.store.Get(o.variant) == acc.store.Get(o.variant)[f.sampleName := o.stats]
            && (forall w :: w != o.variant ==> r.store.Get(w) == acc.store.Get(w))
            && r.arc == ApplyRows(acc.arc, o.variant, f.sampleName, o.rows))
      && (!o.Parsed? ==> r == acc)
  {
  }

  function Collect(files: seq<LogFile>): Accum
    decreases |files|
  {
    if files == [] then Accum(EmptyStore(), map[])
    else Absorb(Collect(files[..|files| - 1]), files[|files| - 1])
  }

  /**
    The loop of `set_trim_stat`: the number at each position of the pattern,
    in pattern order; on failure, the index in the pattern of the first
    position that could not be read.
   */
  method ReadPattern(trim: seq<string>) returns (r: Result<seq<int>, nat>)
    ensures r.Ok? ==>
      && |r.value| == |Pattern|
      && forall j :: 0 <= j < |Pattern| ==> StatAt(trim, Pattern[j].1) == Ok(r.value[j])
    ensures r.Err? ==>
      && r.error < |Pattern| && StatAt(trim, Pattern[r.error].1).Err?
      && forall j :: 0 <= j < r.error ==> StatAt(trim, Pattern[j].1).Ok?
  {
    var values: seq<int> := [];
    for k := 0 to |Pattern|
      invariant |values| == k
      invariant forall j :: 0 <= j < k ==> StatAt(trim, Pattern[j].1) == Ok(values[j])
    {
      var value := StatAt(trim, Pattern[k].1);
      if value.Err? {
        return Err(k);
      }
      values := values + [value.value];
    }
    r := Ok(values);
  }

  /**
    The per-category writes of one distribution row, category by category in
    layout order: the map of a category is created when first needed, then
    the row's length is mapped to the count in that category's column.
   */
  method WriteCategories(arc0: Dist, v: Variant, s: string, row: seq<int>) returns (arc: Dist)
    requires |row| >= RowWidth(v)
    ensures arc == ApplyRow(arc0, v, s, row)
  {
    var cats := Layout(v);
    arc := arc0;
    for k := 0 to |cats|
      invariant arc == WriteUpTo(arc0, v, s, row, k)
    {
      var slot := Slot(cats[k], v, s);
      ghost var before := arc;
      if slot !in arc {
        arc := arc[slot := map[]];
      }
      arc := arc[slot := arc[slot][row[0] := row[k + 1]]];
      assert arc == before[slot := Lookup(before, slot)[row[0] := row[k + 1]]];
    }
  }

  /**
    The loop of `set_len_dist`: each row after the header is converted to
    numbers and written into the sample's maps; the first row that cannot be
    converted or is too short stops the loop with its error.
   */
  method ReadLengthRows(arc0: Dist, v: Variant, s: string, lenDist: seq<string>)
    returns (arc: Dist, failure: Option<Failure>, ghost written: seq<seq<int>>)
    ensures var rs := ParseRows(Body(lenDist), v);
      && (rs.Ok? ==> failure.None? && written == rs.value)
      && (rs.Err? ==> failure == Some(rs.error))
    ensures Fits(written, v) && arc == ApplyRows(arc0, v, s, written)
  {
    var body := Body(lenDist);
    arc := arc0;
    ghost var rows: seq<seq<int>> := [];
    for i := 0 to |body|
      invariant ParseRows(body[..i], v) == Ok(rows)
      invariant Fits(rows, v)
      invariant arc == ApplyRows(arc0, v, s, rows)
    {
      failure, arc, rows := ReadLengthRow(arc0, arc, v, s, body, i, rows);
      if failure.Some? {
        return arc, failure, rows;
      }
    }
    assert body[..|body|] == body;
    failure, written := None, rows;
  }

  /**
    One iteration of the `set_len_dist` loop: row `i` is converted and written
    after the rows before it; a row that cannot be converted is the error of
    the whole block and writes nothing.
   */
  method ReadLengthRow(ghost arc0: Dist, arc: Dist, v: Variant, s: string, body: seq<string>, i: nat, ghost rows: seq<seq<int>>)
    returns (failure: Option<Failure>, next: Dist, ghost rows': seq<seq<int>>)
    requires i < |body| && ParseRows(body[..i], v) == Ok(rows) && Fits(rows, v)
    requires arc == ApplyRows(arc0, v, s, rows)
    ensures failure.Some? ==> ParseRows(body, v) == Err(failure.value) && next == arc && rows' == rows
    ensures failure.None? ==>
      && ParseRows(body[..i + 1], v) == Ok(rows') && Fits(rows', v)
      && next == ApplyRows(arc0, v, s, rows')
  {
    var row := ParseRow(body[i], v);
    if row.Err? {
      ParseRowsFirstError(body, v, i);
      return Some(row.error), arc, rows;
    }
    ParseRowsSnoc(body, v, i, rows, row.value);
    ApplyRowsSnoc(arc0, v, s, rows, row.value);
    next := WriteCategories(arc, v, s, row.value);
    rows' := rows + [row.value];
    failure := None;
  }

  /** Which files make the module fail: those whose outcome is a crash. */
  function CrashFlags(files: seq<LogFile>): seq<bool>
  {
    seq(|files|, i requires 0 <= i < |files| => ParseFile(files[i].lines).Crashed?)
  }

  /** The index and failure of the first file that makes the module fail, if any. */
  function FirstCrash(files: seq<LogFile>): Option<(nat, Failure)>
  {
    match First(CrashFlags(files))
    case None => None
    case Some(k) => Some((k, ParseFile(files[k].lines).failure))
  }

  /** `FirstCrash` finds exactly the first failing file and its failure. */
  lemma FirstCrashSpec(files: seq<LogFile>)
    ensures FirstCrash(files).None? <==> forall i :: 0 <= i < |files| ==> !ParseFile(files[i].lines).Crashed?
    ensures FirstCrash(files).Some? ==>
      var (k, e) := FirstCrash(files).value;
      && k < |files| && ParseFile(files[k].lines) == Crashed(e)
      && forall i :: 0 <= i < k ==> !ParseFile(files[i].lines).Crashed?
  {
    var flags := CrashFlags(files);
    FirstSpec(flags);
    assert forall i :: 0 <= i < |files| ==> flags[i] == ParseFile(files[i].lines).Crashed?;
  }

  lemma CollectSnoc(files: seq<LogFile>, i: nat)
    requires i < |files|
    ensures Collect(files[..i + 1]) == Absorb(Collect(files[..i]), files[i])
    ensures FirstCrash(files[..i + 1])
      == if FirstCrash(files[..i]).Some? then FirstCrash(files[..i])
         else if ParseFile(files[i].lines).Crashed? then Some((i, ParseFile(files[i].lines).failure))
         else None
  {
    assert files[..i + 1][..i] == files[..i];
    var flags := CrashFlags(files[..i + 1]);
    assert flags[..i] == CrashFlags(files[..i]);
    FirstSnoc(flags, i);
  }

  class AdapterRemovalModule {
    var readType: Option<ReadType>
    var collapsed: Option<bool>
    var sampleName: Option<string>
    var resultData: Option<Stats>
    var single: map<string, Stats>
    var paired: map<PairedKey, map<string, Stats>>
    var arc: Dist
    var sections: seq<Section>

    /** `paired` always has its two sub-containers, and the distribution maps stay aligned. */
    ghost predicate Valid()
      reads this`paired, this`arc
    {
      paired.Keys == {CollapsedKey, NoncollapsedKey} && Coherent(arc)
    }

    function PairedGet(key: PairedKey): map<string, Stats>
      reads this`paired
    {
      if key in paired then paired[key] else map[]
    }

    /** The containers as a store. */
    function Records(): Store
      reads this`single, this`paired
    {
      Store(single, PairedGet(NoncollapsedKey), PairedGet(CollapsedKey))
    }

    constructor ()
      ensures Valid()
      ensures readType == None && collapsed == None && sampleName == None && resultData == None
      ensures Records() == EmptyStore() && arc == map[] && sections == []
    {
      readType, collapsed, sampleName, resultData := None, None, None, None;
      single := map[];
      paired := map[CollapsedKey := map[], NoncollapsedKey := map[]];
      arc := map[];
      sections := [];
    }

    /** `set_ar_type`: the read type and collapsed flag are set before the combination is checked. */
    method SetArType(lenDist: seq<string>) returns (failure: Option<Failure>)
      modifies this`readType, this`collapsed
      ensures failure.None? <==> Classify(lenDist).Ok?
      ensures failure.Some? ==> Classify(lenDist) == Err(failure.value)
      ensures Classify(lenDist).Ok? ==>
        readType.Some? && collapsed.Some? && VariantOf(readType.value, collapsed.value) == Some(Classify(lenDist).value)
      ensures Classify(lenDist) == Err(Unsupported) ==> readType == Some(Single) && collapsed == Some(true)
      ensures Classify(lenDist) == Err(BadIndex) ==> readType == old(readType) && collapsed == old(collapsed)
    {
      if |lenDist| == 0 {
        return Some(BadIndex);
      }
      var head := Fields(lenDist[0]);
      if |head| < 3 {
        return Some(BadIndex);
      }
      readType := Some(if head[2] == "Mate2" then Paired else Single);
      collapsed := Some(head[|head| - 3] == "CollapsedTruncated");
      if readType == Some(Single) && collapsed == Some(true) {
        return Some(Unsupported);
      }
      failure := None;
    }

    /** `set_trim_stat`: the four numbers of the pattern, then the derived totals. */
    method SetTrimStat(trim: seq<string>) returns (failure: Option<Failure>)
      requires readType.Some?
      modifies this`resultData
      ensures var r := TrimStats(trim, readType == Some(Paired));
        && (r.Ok? ==> failure.None? && resultData == Some(r.value))
        && (r.Err? ==> failure == Some(r.error) && resultData == old(resultData))
    {
      var values := ReadPattern(trim);
      if values.Err? {
        TrimStatsFirstError(trim, readType == Some(Paired), values.error);
        return Some(StatAt(trim, Pattern[values.error].1).error);
      }
      var v := values.value;
      assert Pattern[0].1 == 0 && Pattern[1].1 == 1 && Pattern[2].1 == 2 && Pattern[3].1 == -3;
      assert StatAt(trim, Pattern[3].1) == Ok(v[3]);
      TrimStatsOfValues(trim, readType == Some(Paired), v[0], v[1], v[2], v[3]);
      var readsTotal := v[0];
      if readType == Some(Paired) {
        readsTotal := v[0] * 2;
      }
      resultData := Some(Stats(v[0], v[1], v[2], readsTotal, v[3], readsTotal - v[3]));
      failure := None;
    }

    /** `set_len_dist`: the rows after the header, in order, into the current sample's maps. */
    method SetLenDist(lenDist: seq<string>) returns (failure: Option<Failure>)
      requires sampleName.Some? && readType.Some? && collapsed.Some?
      requires VariantOf(readType.value, collapsed.value).Some?
      modifies this`arc
      ensures var v := VariantOf(readType.value, collapsed.value).value;
        var rs := ParseRows(Body(lenDist), v);
        && (rs.Ok? ==> failure.None? && Fits(rs.value, v) && arc == ApplyRows(old(arc), v, sampleName.value, rs.value))
        && (rs.Err? ==> failure == Some(rs.error))
      ensures Coherent(old(arc)) ==> Coherent(arc)
    {
      var v := VariantOf(readType.value, collapsed.value).value;
      ghost var written;
      arc, failure, written := ReadLengthRows(arc, v, sampleName.value, lenDist);
      if Coherent(old(arc)) {
        ApplyRowsCoherent(old(arc), v, sampleName.value, written);
      }
    }

    /** `set_result_data`: classify, then the statistics, then the distribution. */
    method SetResultData(blocks: Blocks) returns (failure: Option<Failure>)
      requires sampleName.Some?
      modifies this`readType, this`collapsed, this`resultData, this`arc
      ensures match InterpretBlocks(blocks)
        case Parsed(v, st, rows) =>
          && failure.None? && resultData == Some(st) && readType.Some? && collapsed.Some?
          && VariantOf(readType.value, collapsed.value) == Some(v)
          && arc == ApplyRows(old(arc), v, sampleName.value, rows)
        case Skipped => failure == Some(Unsupported) && arc == old(arc)
        case Crashed(e) => failure == Some(e)
      ensures Coherent(old(arc)) ==> Coherent(arc)
    {
      if LengthDistribution !in blocks {
        return Some(MissingBlock(LengthDistribution));
      }
      var lenDist := blocks[LengthDistribution];
      failure := SetArType(lenDist);
      if failure.Some? {
        return;
      }
      failure := SetStatsAndDist(blocks, Classify(lenDist).value);
    }

    /** The rest of `set_result_data` once the read type is set. */
    method SetStatsAndDist(blocks: Blocks, ghost v: Variant) returns (failure: Option<Failure>)
      requires sampleName.Some? && LengthDistribution in blocks
      requires readType.Some? && collapsed.Some? && VariantOf(readType.value, collapsed.value) == Some(v)
      modifies this`resultData, this`arc
      ensures match InterpretClassified(blocks, v)
        case Parsed(_, st, rows) =>
          failure.None? && resultData == Some(st) && arc == ApplyRows(old(arc), v, sampleName.value, rows)
        case Skipped => false
        case Crashed(e) => failure == Some(e)
      ensures Coherent(old(arc)) ==> Coherent(arc)
    {
      if TrimmingStatistics !in blocks {
        return Some(MissingBlock(TrimmingStatistics));
      }
      assert IsPaired(v) <==> readType == Some(Paired);
      failure := SetTrimStat(blocks[TrimmingStatistics]);
      if failure.Some? {
        return;
      }
      failure := SetLenDist(blocks[LengthDistribution]);
    }

    /** `parse_settings_file`: fresh result, split the lines into blocks, then `set_result_data`. */
    method ParseSettingsFile(lines: seq<string>) returns (failure: Option<Failure>)
      requires sampleName.Some? && Valid()
      modifies this`readType, this`collapsed, this`resultData, this`arc
      ensures Valid()
      ensures match ParseFile(lines)
        case Parsed(v, st, rows) =>
          && failure.None? && resultData == Some(st) && readType.Some? && collapsed.Some?
          && VariantOf(readType.value, collapsed.value) == Some(v)
          && arc == ApplyRows(old(arc), v, sampleName.value, rows)
        case Skipped => failure == Some(Unsupported) && arc == old(arc)
        case Crashed(e) => failure == Some(e)
    {
      resultData := None;
      var blocks := SplitSettings(lines);
      failure := SetResultData(blocks);
    }

    /**
      One iteration of the per-file loop: a parsed record is stored under its
      sample name in exactly one variant container; a rejected file
      (`UserWarning`) is skipped and stores nothing; any other failure
      propagates to the caller.
     */
    method AddFile(f: LogFile) returns (outcome: FileOutcome)
      requires Valid()
      modifies this`readType, this`collapsed, this`sampleName, this`resultData, this`single, this`paired, this`arc
      ensures Valid() && sampleName == Some(f.sampleName)
      ensures outcome == ParseFile(f.lines)
      ensures outcome.Crashed? || Accum(Records(), arc) == Absorb(Accum(old(Records()), old(arc)), f)
    {
      sampleName := Some(f.sampleName);
      var failure := ParseSettingsFile(f.lines);
      outcome := ParseFile(f.lines);
      if failure.Some? {
        return;
      }
      StoreRecord(outcome.variant, f.sampleName, resultData.value);
    }

    /** The record of a parsed file goes to the container its read type and collapse flag select. */
    method StoreRecord(ghost v: Variant, name: string, data: Stats)
      requires Valid() && readType.Some? && collapsed.Some?
      requires VariantOf(readType.value, collapsed.value) == Some(v)
      modifies this`single, this`paired
      ensures Valid() && Records() == old(Records()).Put(v, name, data)
    {
      if readType == Some(Single) {
        single := single[name := data];
      } else if collapsed == Some(true) {
        paired := paired[CollapsedKey := paired[CollapsedKey][name := data]];
      } else {
        paired := paired[NoncollapsedKey := paired[NoncollapsedKey][name := data]];
      }
    }

    /**
      The per-file loop of the constructor, from empty containers: it stops
      at the first file that fails with anything but the rejection.
     */
    method AddFiles(files: seq<LogFile>) returns (crash: Option<(nat, Failure)>)
      requires Valid() && Records() == EmptyStore() && arc == map[]
      modifies this`readType, this`collapsed, this`sampleName, this`resultData, this`single, this`paired, this`arc
      ensures Valid()
      ensures crash == FirstCrash(files)
      ensures crash.None? ==> Accum(Records(), arc) == Collect(files)
    {
      for i := 0 to |files|
        invariant Valid()
        invariant FirstCrash(files[..i]) == None
        invariant Accum(Records(), arc) == Collect(files[..i])
      {
        var outcome := AddFile(files[i]);
        CollectSnoc(files, i);
        if outcome.Crashed? {
          assert CrashFlags(files[..i + 1]) == CrashFlags(files)[..i + 1];
          FirstPrefix(CrashFlags(files), i + 1);
          return Some((i, outcome.failure));
        }
      }
      assert files[..|files|] == files;
      crash := None;
    }

    /** The alignment chart method: one section per non-empty container. */
    method CountsChart()
      modifies this`sections
      ensures sections == old(sections) + ChartSections(AlignmentPlot, Records(), arc)
    {
      ChartMethod(AlignmentPlot);
    }

    /** The retained chart method: one section per non-empty container. */
    method RetainedChart()
      modifies this`sections
      ensures sections == old(sections) + ChartSections(RetainedPlot, Records(), arc)
    {
      ChartMethod(RetainedPlot);
    }

    /** The length-distribution method: one line graph per non-empty container. */
    method LengthDistPlot()
      modifies this`sections
      ensures sections == old(sections) + ChartSections(LengthPlot, Records(), arc)
    {
      ChartMethod(LengthPlot);
    }

    /** The three `if` blocks every chart method has, single-end first. */
    method ChartMethod(chart: Chart)
      modifies this`sections
      ensures sections == old(sections) + ChartSections(chart, Records(), arc)
    {
      var store := Records();
      var added: seq<Section> := [];
      if store.single != map[] {
        added := added + [ChartSection(chart, SingleEnd, store, arc)];
      }
      if store.noncollapsed != map[] {
        added := added + [ChartSection(chart, PairedNoncollapsed, store, arc)];
      }
      if store.collapsed != map[] {
        added := added + [ChartSection(chart, PairedCollapsed, store, arc)];
      }
      sections := sections + added;
    }

    /**
      The tail of the constructor: the no-data test, the report count, a
      fresh section list and the three chart methods in order.
     */
    method Report() returns (tally: Tally)
      modifies this`sections
      ensures tally == TallyOf(single, paired)
      ensures tally.Reported? ==> sections == AllSections(Records(), arc)
    {
      if |single| == 0 && |paired| == 0 {
        return NoReports;
      }
      tally := Reported(|single| + |paired|);
      ghost var store, dist := Records(), arc;
      ghost var counts := ChartSections(AlignmentPlot, store, dist);
      ghost var retained := ChartSections(RetainedPlot, store, dist);
      ghost var lengths := ChartSections(LengthPlot, store, dist);
      sections := [];
      CountsChart();
      assert sections == [] + counts == counts;
      RetainedChart();
      assert sections == counts + retained;
      LengthDistPlot();
      assert sections == counts + retained + lengths;
    }
  }

  /** Since `paired` always has its two keys, the no-data test never fires and the count is two more than the single-end records. */
  lemma TallyAlwaysReports(single: map<string, Stats>, paired: map<PairedKey, map<string, Stats>>)
    requires paired.Keys == {CollapsedKey, NoncollapsedKey}
    ensures TallyOf(single, paired) == Reported(|single| + 2)
  {
    assert |paired.Keys| == 2;
  }

  /**
    The whole module on a list of files: every file is parsed in turn, and
    the first one that fails with anything but the rejection aborts the
    module; otherwise the sections of the collected records are reported.
   */
  method RunAdapterRemoval(files: seq<LogFile>) returns (r: RunResult)
    ensures r.Aborted? <==> FirstCrash(files).Some?
    ensures r.Aborted? ==> FirstCrash(files) == Some((r.file, r.failure))
    ensures r.Report? ==>
      && r.count == |Collect(files).store.single| + 2
      && r.sections == AllSections(Collect(files).store, Collect(files).arc)
    ensures !r.NoData?
  {
    var m := new AdapterRemovalModule();
    var crash := m.AddFiles(files);
    if crash.Some? {
      return Aborted(crash.value.0, crash.value.1);
    }
    var tally := m.Report();
    TallyAlwaysReports(m.single, m.paired);
    r := Report(tally.count, m.sections);
  }
}
