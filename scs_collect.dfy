/**
  The SCS-Collect module: each report is one YAML document; its integer keys
  hold the genome-type entries, flattened by `prepare_gt`, and its
  `rnacomposition` key the RNA composition. A report with both is kept under
  its sample name in two tables that therefore always have the same samples;
  the two tables become two bar-graph sections.
 */
module ScsCollect {
  import opened Wrappers
  import opened ScsValues
  import opened ScsFlatten
  import opened FirstIndex

  const RnaCompositionKey: Key := StrKey("rnacomposition")

  /** The entries `parse_input_file` hands to `prepare_gt`: those under a Python `int` key. */
  function GenomeEntries(doc: map<Key, Value>): map<Key, Value>
  {
    map k | k in doc && IsPyInt(k) :: doc[k]
  }

  /** The composition of a report; `Null` (Python `None`) when it has no `rnacomposition` key. */
  function CompositionOf(doc: map<Key, Value>): Value
  {
    if RnaCompositionKey in doc then doc[RnaCompositionKey] else Null
  }

  /** A key that is neither an `int` nor `rnacomposition` is ignored by the separation. */
  lemma SeparationIgnores(doc: map<Key, Value>, k: Key, v: Value)
    requires !IsPyInt(k) && k != RnaCompositionKey
    ensures GenomeEntries(doc[k := v]) == GenomeEntries(doc)
    ensures CompositionOf(doc[k := v]) == CompositionOf(doc)
  {
    assert GenomeEntries(doc[k := v]).Keys == GenomeEntries(doc).Keys;
  }

  /** An `int` key goes to the genome entries, with its value, and to nothing else. */
  lemma SeparationKeeps(doc: map<Key, Value>, k: Key, v: Value)
    requires IsPyInt(k)
    ensures GenomeEntries(doc[k := v]) == GenomeEntries(doc)[k := v]
    ensures CompositionOf(doc[k := v]) == CompositionOf(doc)
  {
    assert GenomeEntries(doc[k := v]).Keys == GenomeEntries(doc)[k := v].Keys;
  }

  /** The `rnacomposition` key decides the composition and nothing else. */
  lemma SeparationComposition(doc: map<Key, Value>, v: Value)
    ensures GenomeEntries(doc[RnaCompositionKey := v]) == GenomeEntries(doc)
    ensures CompositionOf(doc[RnaCompositionKey := v]) == v
  {
    assert GenomeEntries(doc[RnaCompositionKey := v]).Keys == GenomeEntries(doc).Keys;
  }

  /** The separating loop of `parse_input_file`, in whatever order the items come. */
  method SeparateData(doc: map<Key, Value>) returns (genome: map<Key, Value>, composition: Value)
    ensures genome == GenomeEntries(doc) && composition == CompositionOf(doc)
  {
    genome, composition := map[], Null;
    var rest := doc.Keys;
    while rest != {}
      invariant rest <= doc.Keys
      invariant genome == map k | k in doc && k !in rest && IsPyInt(k) :: doc[k]
      invariant composition == if RnaCompositionKey in doc && RnaCompositionKey !in rest then doc[RnaCompositionKey] else Null
      decreases |rest|
    {
      var key :| key in rest;
      if IsPyInt(key) {
        genome := genome[key := doc[key]];
      } else if key == RnaCompositionKey {
        composition := doc[key];
      }
      rest := rest - {key};
    }
  }

  /** What `parse_input_file` returns: `gt` only when the flattened table is non-empty, `c` always. */
  datatype Parsed = Parsed(gt: Option<map<string, int>>, c: Value)

  /** `e` is an exception reading report `doc` can raise, up to the iteration order. */
  predicate ParseCanFail(doc: Value, e: Failure)
  {
    if doc.Mapping? then CanFail(GenomeEntries(doc.m), e) else e == AttributeError
  }

  /**
    `parse_input_file`: a document that is not a mapping has no `.items()`;
    otherwise the genome entries are flattened, and the result holds the
    table when it is non-empty and the composition.
   */
  method ParseInputFile(doc: Value) returns (r: Result<Parsed, Failure>)
    ensures r.Ok? <==> doc.Mapping? && AllOk(GenomeEntries(doc.m))
    ensures r.Err? ==> ParseCanFail(doc, r.error)
    ensures r.Ok? ==>
      && doc.Mapping? && AllOk(GenomeEntries(doc.m))
      && r.value.c == CompositionOf(doc.m)
      && (r.value.gt.Some? <==> !NoItems(GenomeEntries(doc.m)))
      && (r.value.gt.Some? ==> PossibleGt(GenomeEntries(doc.m), r.value.gt.value))
  {
    if !doc.Mapping? {
      return Err(AttributeError);
    }
    var genome, composition := SeparateData(doc.m);
    var gt := PrepareGt(genome);
    if gt.Err? {
      return Err(gt.error);
    }
    var result := Parsed(None, composition);
    if gt.value != map[] {
      result := result.(gt := Some(gt.value));
    }
    assert gt.value.Keys == FlatKeys(genome);
    FlatKeysEmpty(genome);
    return Ok(result);
  }

  /** How the per-file loop treats a report: it aborts the module, is left out, or is kept. */
  datatype Status = Crashes | Drops | Keeps

  /**
    A report aborts the module when it cannot be read or when its table is
    empty (then `parsed_data['gt']` raises `KeyError`, which nothing
    catches); a report without composition is left out.
   */
  function StatusOf(doc: Value): Status
  {
    if !doc.Mapping? then Crashes
    else
      var genome := GenomeEntries(doc.m);
      if !AllOk(genome) then Crashes
      else if NoItems(genome) then Crashes
      else if CompositionOf(doc.m) == Null then Drops
      else Keeps
  }

  /** `e` is an exception the per-file loop can raise for report `doc`. */
  predicate FileCanFail(doc: Value, e: Failure)
  {
    || ParseCanFail(doc, e)
    || (doc.Mapping? && AllOk(GenomeEntries(doc.m)) && NoItems(GenomeEntries(doc.m)) && e == KeyError)
  }

  /** A report aborts the module exactly when some exception is possible for it. */
  lemma CrashesExactly(doc: Value)
    ensures StatusOf(doc) == Crashes <==> exists e :: FileCanFail(doc, e)
  {
    if doc.Mapping? {
      var genome := GenomeEntries(doc.m);
      if !AllOk(genome) {
        var k :| k in genome && !EntryOk(genome[k]);
        EntryFailsExactly(genome[k]);
        var e :| EntryCanFail(genome[k], e);
        assert FileCanFail(doc, e);
      } else if NoItems(genome) {
        assert FileCanFail(doc, KeyError);
      } else {
        forall e | FileCanFail(doc, e)
          ensures false
        {
          var k :| k in genome && EntryCanFail(genome[k], e);
          EntryFailsExactly(genome[k]);
        }
      }
    } else {
      assert FileCanFail(doc, AttributeError);
    }
  }

  /** One report handed to the module: its sample name and its parsed YAML document. */
  datatype ScsFile = ScsFile(name: string, doc: Value)

  datatype FileOutcome = Kept | Dropped | Crashed(failure: Failure)

  /** What the reports read so far leave in the two tables, the flattened tables given by their keys. */
  datatype Accum = Accum(composition: map<string, Value>, gtKeys: map<string, set<string>>)

  /** The effect of one report that did not abort the module: a kept report replaces its sample's entries. */
  function Absorb(acc: Accum, f: ScsFile): Accum
  {
    if StatusOf(f.doc) == Keeps then
      Accum(acc.composition[f.name := CompositionOf(f.doc.m)], acc.gtKeys[f.name := FlatKeys(GenomeEntries(f.doc.m))])
    else acc
  }

  function Collect(files: seq<ScsFile>): Accum
    decreases |files|
  {
    if files == [] then Accum(map[], map[])
    else Absorb(Collect(files[..|files| - 1]), files[|files| - 1])
  }

  /** The status of each report, in order. */
  function Statuses(files: seq<ScsFile>): (r: seq<Status>)
    ensures |r| == |files|
    decreases |files|
  {
    if files == [] then [] else Statuses(files[..|files| - 1]) + [StatusOf(files[|files| - 1].doc)]
  }

  lemma {:induction false} StatusesAt(files: seq<ScsFile>, i: nat)
    requires i < |files|
    ensures Statuses(files)[i] == StatusOf(files[i].doc)
    decreases |files|
  {
    var init := files[..|files| - 1];
    if i < |init| {
      StatusesAt(init, i);
      assert init[i] == files[i];
    }
  }

  /** The sample names of the reports whose status is `Keeps`. */
  function KeptAmong(files: seq<ScsFile>, sts: seq<Status>): set<string>
    requires |sts| == |files|
  {
    set i | 0 <= i < |files| && sts[i] == Keeps :: files[i].name
  }

  lemma KeptAmongSnoc(files: seq<ScsFile>, sts: seq<Status>)
    requires |sts| == |files| > 0
    ensures var n := |files|;
      KeptAmong(files, sts) == KeptAmong(files[..n - 1], sts[..n - 1]) + if sts[n - 1] == Keeps then {files[n - 1].name} else {}
  {
    var n := |files|;
    var init, sinit := files[..n - 1], sts[..n - 1];
    var extra: set<string> := if sts[n - 1] == Keeps then {files[n - 1].name} else {};
    forall s | s in KeptAmong(files, sts)
      ensures s in KeptAmong(init, sinit) + extra
    {
      var i :| 0 <= i < n && sts[i] == Keeps && files[i].name == s;
      if i < n - 1 {
        assert init[i] == files[i] && sinit[i] == sts[i];
      }
    }
    forall s | s in KeptAmong(init, sinit) + extra
      ensures s in KeptAmong(files, sts)
    {
      if s in KeptAmong(init, sinit) {
        var i :| 0 <= i < n - 1 && sinit[i] == Keeps && init[i].name == s;
        assert files[i] == init[i] && sts[i] == sinit[i];
      }
    }
  }

  /** The sample names of the kept reports among `files`. */
  function KeptNames(files: seq<ScsFile>): set<string>
  {
    KeptAmong(files, Statuses(files))
  }

  /** A name is kept exactly when some report under it has status `Keeps`. */
  lemma KeptNamesSpec(files: seq<ScsFile>, s: string)
    ensures s in KeptNames(files) <==> exists i :: 0 <= i < |files| && files[i].name == s && StatusOf(files[i].doc) == Keeps
  {
    if s in KeptNames(files) {
      var i :| 0 <= i < |files| && Statuses(files)[i] == Keeps && files[i].name == s;
      StatusesAt(files, i);
    }
    if exists i :: 0 <= i < |files| && files[i].name == s && StatusOf(files[i].doc) == Keeps {
      var i :| 0 <= i < |files| && files[i].name == s && StatusOf(files[i].doc) == Keeps;
      StatusesAt(files, i);
    }
  }

  /** The samples of `Collect` are exactly the names of the kept reports, in both tables. */
  lemma {:induction false} CollectSamples(files: seq<ScsFile>)
    ensures Collect(files).composition.Keys == KeptNames(files)
    ensures Collect(files).gtKeys.Keys == KeptNames(files)
    decreases |files|
  {
    if files != [] {
      var init := files[..|files| - 1];
      CollectSamples(init);
      KeptAmongSnoc(files, Statuses(files));
      assert Statuses(files)[..|files| - 1] == Statuses(init);
    }
  }

  /** A later kept report with the same sample name replaces the earlier ones in both tables. */
  lemma {:induction false} CollectLastWins(files: seq<ScsFile>, j: nat)
    requires j < |files| && StatusOf(files[j].doc) == Keeps
    requires forall i :: j < i < |files| ==> files[i].name != files[j].name || Statuses(files)[i] != Keeps
    ensures files[j].name in Collect(files).composition && files[j].name in Collect(files).gtKeys
    ensures Collect(files).composition[files[j].name] == CompositionOf(files[j].doc.m)
    ensures Collect(files).gtKeys[files[j].name] == FlatKeys(GenomeEntries(files[j].doc.m))
    decreases |files|
  {
    var init := files[..|files| - 1];
    assert Statuses(files) == Statuses(init) + [StatusOf(files[|files| - 1].doc)];
    if j < |init| {
      forall i | j < i < |init|
        ensures init[i].name != init[j].name || Statuses(init)[i] != Keeps
      {
        assert init[i] == files[i] && init[j] == files[j];
        assert Statuses(init)[i] == Statuses(files)[i];
      }
      CollectLastWins(init, j);
      assert init[j] == files[j];
    }
  }

  /** The document of the last kept report under sample name `s`, if any. */
  function LastKept(files: seq<ScsFile>, s: string): (r: Option<Value>)
    ensures r.Some? ==> r.value.Mapping? && StatusOf(r.value) == Keeps
    decreases |files|
  {
    if files == [] then None
    else
      var f := files[|files| - 1];
      if f.name == s && StatusOf(f.doc) == Keeps then Some(f.doc) else LastKept(files[..|files| - 1], s)
  }

  /** Both tables hold, for each sample, what its last kept report contributes. */
  lemma {:induction false} CollectFromLastKept(files: seq<ScsFile>, s: string)
    ensures s in Collect(files).composition <==> LastKept(files, s).Some?
    ensures s in Collect(files).gtKeys <==> LastKept(files, s).Some?
    ensures LastKept(files, s).Some? ==>
      && Collect(files).composition[s] == CompositionOf(LastKept(files, s).value.m)
      && Collect(files).gtKeys[s] == FlatKeys(GenomeEntries(LastKept(files, s).value.m))
    decreases |files|
  {
    if files != [] {
      CollectFromLastKept(files[..|files| - 1], s);
    }
  }

  /**
    Every table in `tables` is one that flattening the genome entries of the
    last kept report under that sample name can give.
   */
  ghost predicate TablesFrom(files: seq<ScsFile>, tables: map<string, map<string, int>>)
  {
    forall s :: s in tables ==>
      && LastKept(files, s).Some?
      && PossibleGt(GenomeEntries(LastKept(files, s).value.m), tables[s])
  }

  lemma TablesFromSnoc(files: seq<ScsFile>, i: nat, before: map<string, map<string, int>>, after: map<string, map<string, int>>)
    requires i < |files| && TablesFrom(files[..i], before)
    requires StatusOf(files[i].doc) != Keeps ==> after == before
    requires StatusOf(files[i].doc) == Keeps ==>
      && files[i].name in after && after == before[files[i].name := after[files[i].name]]
      && PossibleGt(GenomeEntries(files[i].doc.m), after[files[i].name])
    ensures TablesFrom(files[..i + 1], after)
  {
    assert files[..i + 1][..i] == files[..i];
    forall s | s in after
      ensures LastKept(files[..i + 1], s).Some?
      ensures PossibleGt(GenomeEntries(LastKept(files[..i + 1], s).value.m), after[s])
    {
      if !(files[i].name == s && StatusOf(files[i].doc) == Keeps) {
        assert s in before && after[s] == before[s];
      }
    }
  }

  /** Which reports abort the module: those whose status is `Crashes`. */
  function CrashFlags(files: seq<ScsFile>): seq<bool>
  {
    seq(|files|, i requires 0 <= i < |files| => StatusOf(files[i].doc) == Crashes)
  }

  /** The index of the first report that aborts the module, if any. */
  function FirstCrash(files: seq<ScsFile>): Option<nat>
  {
    First(CrashFlags(files))
  }

  /** `FirstCrash` finds exactly the first report that aborts. */
  lemma FirstCrashSpec(files: seq<ScsFile>)
    ensures FirstCrash(files).None? <==> forall i :: 0 <= i < |files| ==> StatusOf(files[i].doc) != Crashes
    ensures FirstCrash(files).Some? ==>
      && FirstCrash(files).value < |files| && StatusOf(files[FirstCrash(files).value].doc) == Crashes
      && forall i :: 0 <= i < FirstCrash(files).value ==> StatusOf(files[i].doc) != Crashes
  {
    var flags := CrashFlags(files);
    FirstSpec(flags);
    assert forall i :: 0 <= i < |files| ==> flags[i] == (StatusOf(files[i].doc) == Crashes);
  }

  lemma CollectSnoc(files: seq<ScsFile>, i: nat)
    requires i < |files|
    ensures Collect(files[..i + 1]) == Absorb(Collect(files[..i]), files[i])
    ensures FirstCrash(files[..i + 1])
      == if FirstCrash(files[..i]).Some? then FirstCrash(files[..i])
         else if StatusOf(files[i].doc) == Crashes then Some(i)
         else None
  {
    assert files[..i + 1][..i] == files[..i];
    var flags := CrashFlags(files[..i + 1]);
    assert flags[..i] == CrashFlags(files[..i]);
    FirstSnoc(flags, i);
  }

  datatype ScsChart = GenomeTypesPlot | RnaCompositionPlot

  function SectionName(chart: ScsChart): string
  {
    match chart
    case GenomeTypesPlot => "genome types and proportions"
    case RnaCompositionPlot => "rna composition"
  }

  function Anchor(chart: ScsChart): string
  {
    match chart
    case GenomeTypesPlot => "genome_types_plot"
    case RnaCompositionPlot => "rna_composition_plot"
  }

  /** The plot configuration id: only the genome-types graph passes one. */
  function PlotId(chart: ScsChart): Option<string>
  {
    match chart
    case GenomeTypesPlot => Some("gt_plot")
    case RnaCompositionPlot => None
  }

  /** The data of a bar graph: the per-sample tables it is drawn from. */
  datatype ScsPlot = GenomeBars(genomeTypes: map<string, map<string, int>>) | CompositionBars(composition: map<string, Value>)

  datatype ScsSection = ScsSection(chart: ScsChart, plot: ScsPlot) {
    function Name(): string { SectionName(chart) }
    function AnchorName(): string { Anchor(chart) }
    function PlotConfigId(): Option<string> { PlotId(chart) }
  }

  /** The name, anchor and plot id each section is added with. */
  lemma SectionLabels(sec: ScsSection)
    ensures sec.chart == GenomeTypesPlot ==>
      sec.Name() == "genome types and proportions" && sec.AnchorName() == "genome_types_plot" && sec.PlotConfigId() == Some("gt_plot")
    ensures sec.chart == RnaCompositionPlot ==>
      sec.Name() == "rna composition" && sec.AnchorName() == "rna_composition_plot" && sec.PlotConfigId() == None
  {
  }

  /** `count == 0`, raising `UserWarning`, or the report count. */
  datatype Tally = NoReports | Reported(count: int)

  datatype RunResult = Aborted(file: nat, failure: Failure) | NoData | Report(count: int, sections: seq<ScsSection>)

  /** The key set of each sample's flattened table. */
  function KeysOf(tables: map<string, map<string, int>>): (r: map<string, set<string>>)
    ensures r.Keys == tables.Keys
  {
    map s | s in tables :: tables[s].Keys
  }

  lemma KeysOfUpdate(tables: map<string, map<string, int>>, name: string, gt: map<string, int>)
    ensures KeysOf(tables[name := gt]) == KeysOf(tables)[name := gt.Keys]
  {
  }

  class ScsCollectModule {
    var sampleName: Option<string>
    var genomeTypes: map<string, map<string, int>>
    var composition: map<string, Value>
    var sections: seq<ScsSection>

    /** Both tables are written together, so they have the same samples. */
    ghost predicate Valid()
      reads this`genomeTypes, this`composition
    {
      genomeTypes.Keys == composition.Keys
    }

    /** The two tables, the flattened tables given by their keys. */
    function Contents(): Accum
      reads this`genomeTypes, this`composition
    {
      Accum(composition, KeysOf(genomeTypes))
    }

    constructor ()
      ensures Valid() && sampleName == None && Contents() == Accum(map[], map[]) && sections == []
    {
      sampleName := None;
      genomeTypes, composition := map[], map[];
      sections := [];
    }

    /**
      One iteration of the per-file loop: a report with a non-empty table and
      a composition is kept in both tables under its sample name; one without
      composition is left out; an exception propagates to the caller.
     */
    method AddFile(f: ScsFile) returns (outcome: FileOutcome)
      requires Valid()
      modifies this`sampleName, this`genomeTypes, this`composition
      ensures Valid() && sampleName == Some(f.name)
      ensures outcome.Crashed? <==> StatusOf(f.doc) == Crashes
      ensures outcome.Kept? <==> StatusOf(f.doc) == Keeps
      ensures outcome.Crashed? ==> FileCanFail(f.doc, outcome.failure)
      ensures !outcome.Crashed? ==> Contents() == Absorb(old(Contents()), f)
      ensures outcome.Kept? ==>
        && f.doc.Mapping? && AllOk(GenomeEntries(f.doc.m))
        && f.name in genomeTypes && PossibleGt(GenomeEntries(f.doc.m), genomeTypes[f.name])
        && genomeTypes == old(genomeTypes)[f.name := genomeTypes[f.name]]
      ensures !outcome.Kept? ==> genomeTypes == old(genomeTypes)
    {
      sampleName := Some(f.name);
      var parsed := ParseInputFile(f.doc);
      if parsed.Err? {
        return Crashed(parsed.error);
      }
      if parsed.value.gt.None? {
        return Crashed(KeyError);
      }
      if parsed.value.c == Null {
        return Dropped;
      }
      Keep(f.name, parsed.value.gt.value, parsed.value.c);
      outcome := Kept;
    }

    /** Both tables get the report's entry under its sample name. */
    method Keep(name: string, gt: map<string, int>, c: Value)
      requires Valid()
      modifies this`genomeTypes, this`composition
      ensures Valid()
      ensures genomeTypes == old(genomeTypes)[name := gt]
      ensures Contents() == Accum(old(composition)[name := c], old(Contents()).gtKeys[name := gt.Keys])
    {
      KeysOfUpdate(genomeTypes, name, gt);
      genomeTypes := genomeTypes[name := gt];
      composition := composition[name := c];
    }

    /**
      The per-file loop of the constructor, from empty tables: it stops at the
      first report that raises.
     */
    method AddFiles(files: seq<ScsFile>) returns (crash: Option<(nat, Failure)>)
      requires Valid() && Contents() == Accum(map[], map[])
      modifies this`sampleName, this`genomeTypes, this`composition
      ensures Valid()
      ensures crash.None? <==> FirstCrash(files).None?
      ensures crash.Some? ==> FirstCrash(files) == Some(crash.value.0) && FileCanFail(files[crash.value.0].doc, crash.value.1)
      ensures crash.None? ==> Contents() == Collect(files) && TablesFrom(files, genomeTypes)
    {
      for i := 0 to |files|
        invariant Valid()
        invariant FirstCrash(files[..i]) == None
        invariant Contents() == Collect(files[..i])
        invariant TablesFrom(files[..i], genomeTypes)
      {
        ghost var before := genomeTypes;
        var outcome := AddFile(files[i]);
        CollectSnoc(files, i);
        if !outcome.Crashed? {
          TablesFromSnoc(files, i, before, genomeTypes);
        }
        if outcome.Crashed? {
          assert CrashFlags(files[..i + 1]) == CrashFlags(files)[..i + 1];
          FirstPrefix(CrashFlags(files), i + 1);
          return Some((i, outcome.failure));
        }
      }
      assert files[..|files|] == files;
      crash := None;
    }

    /** `plot_genome_types`: one section drawn from the genome-types table. */
    method PlotGenomeTypes()
      modifies this`sections
      ensures sections == old(sections) + [ScsSection(GenomeTypesPlot, GenomeBars(genomeTypes))]
    {
      sections := sections + [ScsSection(GenomeTypesPlot, GenomeBars(genomeTypes))];
    }

    /** `plot_rna_composition`: one section drawn from the composition table. */
    method PlotRnaComposition()
      modifies this`sections
      ensures sections == old(sections) + [ScsSection(RnaCompositionPlot, CompositionBars(composition))]
    {
      sections := sections + [ScsSection(RnaCompositionPlot, CompositionBars(composition))];
    }

    /**
      The tail of the constructor: the count of both tables, so twice the
      number of kept samples; with none, `UserWarning`, otherwise the two
      sections in order.
     */
    method Report() returns (tally: Tally)
      requires Valid()
      modifies this`sections
      ensures tally == NoReports <==> genomeTypes == map[]
      ensures tally.Reported? ==> tally.count == 2 * |genomeTypes|
      ensures tally.Reported? ==>
        sections == old(sections) + [ScsSection(GenomeTypesPlot, GenomeBars(genomeTypes)), ScsSection(RnaCompositionPlot, CompositionBars(composition))]
    {
      var count := |genomeTypes| + |composition|;
      if count == 0 {
        return NoReports;
      }
      tally := Reported(count);
      PlotGenomeTypes();
      PlotRnaComposition();
    }
  }

  /**
    The whole module on a list of reports: the first report that raises
    aborts the module; otherwise the kept samples are counted twice (once per
    table) and, if there are any, the two sections are reported.
   */
  method RunScsCollect(files: seq<ScsFile>) returns (r: RunResult)
    ensures r.Aborted? <==> FirstCrash(files).Some?
    ensures r.Aborted? ==> FirstCrash(files) == Some(r.file) && FileCanFail(files[r.file].doc, r.failure)
    ensures r.NoData? <==> FirstCrash(files).None? && Collect(files).composition == map[]
    ensures r.Report? ==>
      && r.count == 2 * |Collect(files).composition|
      && |r.sections| == 2
      && r.sections[0].Name() == "genome types and proportions" && r.sections[1].Name() == "rna composition"
      && r.sections[0].AnchorName() == "genome_types_plot" && r.sections[1].AnchorName() == "rna_composition_plot"
      && r.sections[0].PlotConfigId() == Some("gt_plot") && r.sections[1].PlotConfigId() == None
      && r.sections[0].plot.GenomeBars?
      && KeysOf(r.sections[0].plot.genomeTypes) == Collect(files).gtKeys
      && TablesFrom(files, r.sections[0].plot.genomeTypes)
      && r.sections[1].plot == CompositionBars(Collect(files).composition)
  {
    var m := new ScsCollectModule();
    var crash := m.AddFiles(files);
    if crash.Some? {
      return Aborted(crash.value.0, crash.value.1);
    }
    var tally := m.Report();
    if tally.NoReports? {
      return NoData;
    }
    r := Report(tally.count, m.sections);
    SectionLabels(r.sections[0]);
    SectionLabels(r.sections[1]);
  }
}
