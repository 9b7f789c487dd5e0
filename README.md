# AdapterRemoval and SCS-Collect log parsers, modelled in Dafny

This project models two MultiQC modules, as the Python 2 code has them.

**AdapterRemoval** (`AdapterRemoval`, with `SettingsBlocks`, `AdapterRemovalFormat`
and `AdapterRemovalDist`). The module object reads the settings files one by one:

- It splits each file into named blocks. The first non-blank line goes to `header`, and a line starting with `[` opens a block.
- It classifies the file from the header of its `Length distribution` block: single-end, paired noncollapsed or paired collapsed. Single-end collapsed is rejected with `UserWarning`.
- It reads four trimming statistics by line position and derives `reads_total` and `discarded`.
- It routes every row of the length distribution into per-category, per-sample maps.
- It stores the record in the container of its variant.
- It appends report sections for the non-empty containers, in a fixed order.

The module object is a Dafny class whose fields are the source's fields. Its
methods carry loops and `modifies` clauses. They are proved against
functions (`ParseFile`, `InterpretBlocks`, `TrimStats`, `ParseRows`, `ApplyRows`,
`Collect`, `AllSections`), and the lemmas state the properties of those functions.

**SCS-Collect** (`ScsCollect`, with `ScsValues` and `ScsFlatten`). The module reads
each report once YAML has loaded it:

- Its integer keys become genome-type entries, the key `rnacomposition` becomes the composition, and other keys are ignored.
- The genome-type entries are flattened into one table keyed `"<type>_<subtype>"`, holding `int()` of each value.
- A sample that has both a non-empty table and a composition is added to the module's two tables.
- The module reports twice the number of such samples, then two sections.

Python 2 dictionaries iterate in an unspecified order. The SCS loops therefore pick
their next key with `:|`, and every contract holds whatever the order.

Both modules stop at the first file that raises. The shared module `FirstIndex`
finds that file, given a flag for each file saying whether it aborts.

Failures are values. A rejected file is `Skipped`. The `KeyError`, `IndexError`,
`ValueError`, `TypeError` and `AttributeError` that nothing catches become
`Crashed`/`Aborted` results, which carry the index of the failing file.

Some behaviour of the code that the model keeps:

- **AdapterRemoval statistics.** `retained` is read from the third line from the end, whatever its label. In a four-line block `total`, `unaligned`, `aligned`, `retained`, that is the `unaligned` line. So in a single-end file the block `total: 100`, `unaligned: 20`, `aligned: 80`, `retained: 90` gives retained 20 and discarded 80. In a paired file the total is doubled to 200 first, so the same block gives discarded 180.
- **AdapterRemoval errors.** A malformed number or a missing block raises an exception that is not caught, so the module aborts (`Aborted`). Only the single-end collapsed case is skipped.
- **AdapterRemoval "no data".** The container `paired` always has its two sub-containers. So the check for no data never fires, even with no files at all, and the report count is the number of single-end records plus 2 (`TallyAlwaysReports`, `RunAdapterRemoval`).
- **SCS-Collect missing table.** When a report's genome-type table flattens to nothing, its parse result has no `'gt'` key. Then `parsed_data['gt']` raises a `KeyError` that is not caught, and the module aborts (`StatusOf`, `CrashesExactly`).
- **SCS-Collect `except UserWarning`.** This handler around `parse_input_file` can never fire, because nothing in that call raises `UserWarning`.
- **`int()` of a string.** Python 2 skips whitespace around the numeral and also between the sign and the digits, so `int('- 5')` is `-5` (`ParseIntAccepts`, `ParseIntSignGap`).

## Model

| member | source | states |
|---|---|---|
| `PyText.RStrip` | multiqc/modules/adapterRemoval/adapterRemoval.py:136 | `rstrip(cs)`: the result is a prefix of the string, everything it drops is in `cs`, and it does not end in `cs` |
| `PyText.Strip` | multiqc/modules/adapterRemoval/adapterRemoval.py:146 | `strip('[]')`: the result is no longer than the line and neither starts nor ends with a bracket |
| `PyText.StripCuts` | multiqc/modules/adapterRemoval/adapterRemoval.py:146 | the line is a run of stripped characters, the result, and another run: `strip` removes exactly the characters of `cs` at both ends |
| `PyText.Split` | multiqc/modules/adapterRemoval/adapterRemoval.py:184 | `split(sep)` always returns at least one piece |
| `PyText.SplitAtFirst` | multiqc/modules/adapterRemoval/adapterRemoval.py:184 | the first piece of `split(sep)` ends where the first occurrence of `sep` starts, and the rest is the split of what follows it |
| `PyText.SplitNone` | multiqc/modules/adapterRemoval/adapterRemoval.py:184 | a string in which `sep` does not occur splits into itself alone |
| `PyText.JoinSplit` | multiqc/modules/adapterRemoval/adapterRemoval.py:197 | joining the pieces of a split with the separator gives the line back, so nothing is lost |
| `PyText.SplitJoin` | multiqc/modules/adapterRemoval/adapterRemoval.py:166 | splitting on a one-character separator undoes joining pieces that do not contain it |
| `PyText.ParseIntStrips` | multiqc/modules/adapterRemoval/adapterRemoval.py:185 | `int(s)` is the numeral left once surrounding whitespace is stripped |
| `PyText.ParseInt` | multiqc/modules/adapterRemoval/adapterRemoval.py:185 | `int()` of a `str`; specified by `ParseIntAccepts`, `ParseIntShape` and `ParseIntStrips` |
| `PyText.ParseNumeral` | multiqc/modules/adapterRemoval/adapterRemoval.py:185 | `int()` of a string without surrounding whitespace: an optional sign, optional whitespace after it, then digits; specified by `ParseIntAccepts` and `ParseIntShape` |
| `PyText.ParseIntAccepts` | multiqc/modules/adapterRemoval/adapterRemoval.py:185 | a numeral with an optional sign, whitespace around it and whitespace between the sign and the digits is read as its value |
| `PyText.ParseIntShape` | multiqc/modules/adapterRemoval/adapterRemoval.py:185 | conversely, every string `int()` accepts has that shape, and the value returned is its value |
| `PyText.ParseIntAround` | multiqc/modules/adapterRemoval/adapterRemoval.py:198 | whitespace before and after a numeral does not change what `int()` reads |
| `PyText.ParseIntSignGap` | multiqc/modules/adapterRemoval/adapterRemoval.py:185 | `int('- 5')` is `-5` |
| `PyText.ParseIntSignAlone` | multiqc/modules/adapterRemoval/adapterRemoval.py:185 | `int('- ')` raises `ValueError`: a sign needs digits |
| `PyText.ParseIntOfIntToString` | multiqc/modules/adapterRemoval/adapterRemoval.py:198 | `int(str(i)) == i` for every integer |
| `SettingsBlocks.Start` | multiqc/modules/adapterRemoval/adapterRemoval.py:131-133 | the splitter starts with `header` present and no block open |
| `SettingsBlocks.Step` | multiqc/modules/adapterRemoval/adapterRemoval.py:134-150 | one line of the loop keeps `header` and the open block present |
| `SettingsBlocks.SplitSettings` | multiqc/modules/adapterRemoval/adapterRemoval.py:131-150 | the loop over the lines builds exactly the blocks `BlocksOf` defines |
| `SettingsBlocks.RunAppend` | multiqc/modules/adapterRemoval/adapterRemoval.py:134 | the splitter processes a file line by line: two pieces of input are the first, then the second |
| `SettingsBlocks.BlankLinesIgnored` | multiqc/modules/adapterRemoval/adapterRemoval.py:136-138 | removing every line that is empty after `rstrip('\n')` changes nothing, from any state |
| `SettingsBlocks.BlankLineInsertion` | multiqc/modules/adapterRemoval/adapterRemoval.py:136-138 | inserting a blank line anywhere yields the same blocks |
| `SettingsBlocks.WhitespaceLineKept` | multiqc/modules/adapterRemoval/adapterRemoval.py:136-150 | a line that starts with whitespace other than a newline is not skipped and opens nothing: it is appended to the open block, or to `header` when none is open |
| `SettingsBlocks.FirstLineToHeader` | multiqc/modules/adapterRemoval/adapterRemoval.py:140-143 | the first non-blank line goes to `header`, bracketed or not, and the rest of the file continues from that state |
| `SettingsBlocks.AllBlank` | multiqc/modules/adapterRemoval/adapterRemoval.py:137-138 | a run of blank lines contributes nothing |
| `SettingsBlocks.ContentAppended` | multiqc/modules/adapterRemoval/adapterRemoval.py:150 | until an opener, the non-blank lines are appended to the open block in input order, and nothing else changes |
| `SettingsBlocks.OpenerResets` | multiqc/modules/adapterRemoval/adapterRemoval.py:145-148 | `[name]` (re)opens `name` empty, so a reused name holds only what follows its last opener |
| `SettingsBlocks.EmptyOpenerBackToHeader` | multiqc/modules/adapterRemoval/adapterRemoval.py:140-148 | an opener that strips to the empty name leaves no block open, so the next line goes to `header` again |
| `AdapterRemovalFormat.VariantOf` | multiqc/modules/adapterRemoval/adapterRemoval.py:167-174 | no variant exactly for single-end collapsed; otherwise the variant is paired iff the read type is, and collapsed iff the flag is |
| `AdapterRemovalFormat.Column` | multiqc/modules/adapterRemoval/adapterRemoval.py:199-263 | every category a variant has is read from a column between 1 and the row width |
| `AdapterRemovalFormat.LayoutColumns` | multiqc/modules/adapterRemoval/adapterRemoval.py:199-263 | a variant's categories are exactly its layout, the category at layout position k is read from column k+1, and every column from 1 to the layout length is used |
| `AdapterRemovalFormat.CanonicalHeaderColumns` | multiqc/modules/adapterRemoval/adapterRemoval.py:216-235 | in the header AdapterRemoval writes, each category heads the column its counts are read from |
| `AdapterRemovalFormat.Fields` | multiqc/modules/adapterRemoval/adapterRemoval.py:197 | `rstrip('\n').split('\t')` has at least one field |
| `AdapterRemovalFormat.Classify` | multiqc/modules/adapterRemoval/adapterRemoval.py:165-174 | `IndexError` iff the block is empty or the header has fewer than 3 columns; otherwise paired iff column 2 is `Mate2` and collapsed iff column -3 is `CollapsedTruncated`; `UserWarning` iff single-end and collapsed |
| `AdapterRemovalFormat.ClassifyHeader` | multiqc/modules/adapterRemoval/adapterRemoval.py:165-168 | a header with the columns of a variant classifies as that variant |
| `AdapterRemovalFormat.ClassifyCanonicalHeader` | multiqc/modules/adapterRemoval/adapterRemoval.py:166-168 | the tab-joined header AdapterRemoval writes for a variant, followed by any rows, classifies as that variant |
| `AdapterRemovalFormat.CanonicalHeaderFields` | multiqc/modules/adapterRemoval/adapterRemoval.py:166 | splitting the written header line gives back its columns |
| `AdapterRemovalFormat.At` | multiqc/modules/adapterRemoval/adapterRemoval.py:183 | `lines[pos]`: defined iff `-len <= pos < len`, a negative position counting from the end |
| `AdapterRemovalFormat.StatValue` | multiqc/modules/adapterRemoval/adapterRemoval.py:184-185 | `int(line.split(': ')[1])` fails only with `IndexError` or `ValueError`; specified by `StatValueUnlabelled`, `StatValueLabelled` and `StatValueOfPrinted` |
| `AdapterRemovalFormat.StatValueUnlabelled` | multiqc/modules/adapterRemoval/adapterRemoval.py:184 | a line without `': '` has no piece 1, so reading it is an `IndexError` |
| `AdapterRemovalFormat.StatValueLabelled` | multiqc/modules/adapterRemoval/adapterRemoval.py:184-185 | on `name: value` with no colon in name or value, the number read is `int(value)`, and a value that is no numeral is a `ValueError` |
| `AdapterRemovalFormat.StatValueOfPrinted` | multiqc/modules/adapterRemoval/adapterRemoval.py:184-185 | a line `name: str(n)` reads back as `n` |
| `AdapterRemovalFormat.StatAt` | multiqc/modules/adapterRemoval/adapterRemoval.py:183-185 | reading a statistic fails only with `IndexError` or `ValueError` |
| `AdapterRemovalFormat.TrimStats` | multiqc/modules/adapterRemoval/adapterRemoval.py:176-192 | succeeds iff the block has at least 3 lines and lines 0, 1, 2 and -3 all hold a number after `': '`; then total, unaligned, aligned and retained are those numbers, `reads_total` is `2*total` iff paired, and `discarded = reads_total - retained` |
| `AdapterRemovalFormat.TrimStatsOfValues` | multiqc/modules/adapterRemoval/adapterRemoval.py:187-192 | once the four numbers are known, the record is determined by them and the read type |
| `AdapterRemovalFormat.TrimStatsFirstError` | multiqc/modules/adapterRemoval/adapterRemoval.py:182-185 | the fields are read in pattern order, so the first unreadable one decides the error |
| `AdapterRemovalFormat.ParseFields` | multiqc/modules/adapterRemoval/adapterRemoval.py:198 | `map(int, fields)` keeps the number of fields |
| `AdapterRemovalFormat.ParseFieldsValues` | multiqc/modules/adapterRemoval/adapterRemoval.py:198 | field i converts to element i of the converted row |
| `AdapterRemovalFormat.ParseFieldsFails` | multiqc/modules/adapterRemoval/adapterRemoval.py:198 | the conversion fails only at a field that is not a numeral |
| `AdapterRemovalFormat.ParseRow` | multiqc/modules/adapterRemoval/adapterRemoval.py:197-263 | a converted row has one number per field and is wide enough for the layout; otherwise `ValueError` or `IndexError`, and `IndexError` only for a row narrower than the layout |
| `AdapterRemovalFormat.ParseRowFields` | multiqc/modules/adapterRemoval/adapterRemoval.py:197-198 | a converted row holds the numbers of the line's fields in order; `ValueError` iff some field is not a numeral |
| `AdapterRemovalFormat.ParseRows` | multiqc/modules/adapterRemoval/adapterRemoval.py:196-198 | a converted block has one row per line |
| `AdapterRemovalFormat.ParseRowsOk` | multiqc/modules/adapterRemoval/adapterRemoval.py:196-198 | every row of a converted block is the conversion of the line there |
| `AdapterRemovalFormat.ParseRowsAt` | multiqc/modules/adapterRemoval/adapterRemoval.py:196-198 | the row at one position is the conversion of the line at that position |
| `AdapterRemovalFormat.ParseRowsError` | multiqc/modules/adapterRemoval/adapterRemoval.py:196-198 | a block that fails has a line whose conversion fails that way |
| `AdapterRemovalFormat.ParseRowsSnoc` | multiqc/modules/adapterRemoval/adapterRemoval.py:196 | the rows are converted in order: one more good line extends the rows by its row |
| `AdapterRemovalFormat.ParseRowsFirstError` | multiqc/modules/adapterRemoval/adapterRemoval.py:196-198 | the error of a block is that of its first bad line |
| `AdapterRemovalFormat.Body` | multiqc/modules/adapterRemoval/adapterRemoval.py:196 | `len_dist_data[1:]`: the header row is skipped, and an empty block has no rows |
| `AdapterRemovalFormat.InterpretBlocks` | multiqc/modules/adapterRemoval/adapterRemoval.py:157-163 | a missing distribution block is a `KeyError`; skipped iff the block classifies as rejected; any other classification error is that crash; once classified, the outcome is `InterpretClassified`; parsed iff both blocks exist and classification, statistics and rows all succeed, and then it has those values, each row wide enough |
| `AdapterRemovalFormat.InterpretClassified` | multiqc/modules/adapterRemoval/adapterRemoval.py:161-163 | never skipped; a missing statistics block is a `KeyError`; a statistics error, then a row error, is the crash; otherwise parsed with the variant, the statistics and the rows of its blocks |
| `AdapterRemovalFormat.ParseFile` | multiqc/modules/adapterRemoval/adapterRemoval.py:120-163 | `parse_settings_file`: the blocks of the lines, interpreted; specified by `InterpretBlocks` and `SettingsBlocks.SplitSettings` |
| `AdapterRemovalDist.SlotsOf` | multiqc/modules/adapterRemoval/adapterRemoval.py:199-263 | the maps one row writes are exactly the sample's maps for the categories of its variant |
| `AdapterRemovalDist.WriteUpToWritten` | multiqc/modules/adapterRemoval/adapterRemoval.py:199-263 | after the first k writes of a row, the first k categories hold the row's counts, and the later ones and every other map are unchanged |
| `AdapterRemovalDist.ApplyRow` | multiqc/modules/adapterRemoval/adapterRemoval.py:199-263 | one row creates each of the variant's category maps for the sample if missing and maps `row[0]` to that category's column; every other map is left alone |
| `AdapterRemovalDist.ApplyRowUnique` | multiqc/modules/adapterRemoval/adapterRemoval.py:199-263 | the two facts `ApplyRow` promises determine its result |
| `AdapterRemovalDist.ApplyRows` | multiqc/modules/adapterRemoval/adapterRemoval.py:196-263 | the rows of a block applied in order; specified by `ApplyRowsSnoc`, `ApplyRowsCoherent`, `ApplyRowsKeys`, `ApplyRowsLastWins`, `ApplyRowsKeepsOthers` and `ApplyRowsOtherSlots` |
| `AdapterRemovalDist.ApplyRowsSnoc` | multiqc/modules/adapterRemoval/adapterRemoval.py:196 | rows are applied in order: one more row is applied after the others |
| `AdapterRemovalDist.ApplyRowCoherent` | multiqc/modules/adapterRemoval/adapterRemoval.py:199-263 | one row keeps the invariant: a variant only has its own category maps, and a sample's maps exist together and share their lengths |
| `AdapterRemovalDist.ApplyRowsCoherent` | multiqc/modules/adapterRemoval/adapterRemoval.py:194-263 | a whole distribution block keeps the invariant, so after the loop all category maps of the sample and variant have the same key set |
| `AdapterRemovalDist.ApplyRowsOtherSlots` | multiqc/modules/adapterRemoval/adapterRemoval.py:201-263 | nothing else changes: maps of other samples and other variants are untouched |
| `AdapterRemovalDist.RowKeysSnoc` | multiqc/modules/adapterRemoval/adapterRemoval.py:196-198 | one more row adds its length to the lengths mentioned |
| `AdapterRemovalDist.ApplyRowsKeys` | multiqc/modules/adapterRemoval/adapterRemoval.py:201-263 | each category map of the sample exists iff it existed or there was a row, and its lengths are the old ones plus those of the rows: maps are never reset, so a repeated sample merges |
| `AdapterRemovalDist.ApplyRowsLastWins` | multiqc/modules/adapterRemoval/adapterRemoval.py:196-263 | for a duplicated length, the count stored is the last row's, read from the category's column |
| `AdapterRemovalDist.ApplyRowKeepsLength` | multiqc/modules/adapterRemoval/adapterRemoval.py:203 | a row leaves the count of every other length alone |
| `AdapterRemovalDist.ApplyRowsKeepsOthers` | multiqc/modules/adapterRemoval/adapterRemoval.py:196-263 | a length no row mentions keeps its old count |
| `AdapterRemovalDist.AllIsUnion` | multiqc/modules/adapterRemoval/adapterRemoval.py:209-263 | under the invariant, the lengths of the `all` map are the union of those of the other categories |
| `AdapterRemovalDist.CategoryView` | multiqc/modules/adapterRemoval/adapterRemoval.py:382-385 | `arc_<cat>[variant]` holds exactly the samples with a map for that category, each with that map |
| `AdapterRemoval.Store.Put` | multiqc/modules/adapterRemoval/adapterRemoval.py:94-101 | a record goes into the container of its variant under its name, and the other containers are unchanged |
| `AdapterRemoval.Series` | multiqc/modules/adapterRemoval/adapterRemoval.py:381-427 | the line graph has one per-sample view per category, in layout order |
| `AdapterRemoval.ChartSectionsEmitted` | multiqc/modules/adapterRemoval/adapterRemoval.py:277-303 | a chart method appends one section per non-empty container, in the order single-end, paired noncollapsed, paired collapsed |
| `AdapterRemoval.AbsorbEffect` | multiqc/modules/adapterRemoval/adapterRemoval.py:88-101 | a parsed record is stored under its sample name in exactly its variant's container and its rows go to that sample's maps; a skipped file changes nothing |
| `AdapterRemoval.Absorb` | multiqc/modules/adapterRemoval/adapterRemoval.py:94-101 | one file's effect on the containers and maps; specified by `AbsorbEffect` |
| `AdapterRemoval.Collect` | multiqc/modules/adapterRemoval/adapterRemoval.py:88-101 | the files absorbed in order; specified by `CollectSnoc` and `AddFiles` |
| `AdapterRemoval.TallyOf` | multiqc/modules/adapterRemoval/adapterRemoval.py:103-107 | the no-data test and the count; specified by `TallyAlwaysReports` |
| `AdapterRemoval.ReadPattern` | multiqc/modules/adapterRemoval/adapterRemoval.py:182-185 | the loop over the pattern yields the number at every position, or the first position that cannot be read |
| `AdapterRemoval.WriteCategories` | multiqc/modules/adapterRemoval/adapterRemoval.py:199-263 | the per-category writes of one row compute `ApplyRow` |
| `AdapterRemoval.ReadLengthRows` | multiqc/modules/adapterRemoval/adapterRemoval.py:196-263 | the row loop writes every converted row; the first bad row stops it with the block's error |
| `AdapterRemoval.ReadLengthRow` | multiqc/modules/adapterRemoval/adapterRemoval.py:196-198 | one iteration writes row i after the earlier rows; a bad row is the block's error and writes nothing |
| `FirstIndex.First` | multiqc/modules/adapterRemoval/adapterRemoval.py:88-93 | the first flagged file of a list, if any, is at an index of the list and is flagged; both module loops search their files this way |
| `FirstIndex.FirstSpec` | multiqc/modules/adapterRemoval/adapterRemoval.py:88-93 | there is no result iff no flag is set; otherwise every earlier flag is clear |
| `FirstIndex.FirstSnoc` | multiqc/modules/scs_collect/scs_collect.py:31-39 | the files are looked at in order: one more file decides the result only while no earlier one was flagged |
| `FirstIndex.FirstPrefix` | multiqc/modules/scs_collect/scs_collect.py:31-39 | once a prefix holds a flagged file, later files do not change which one is first, so a loop may stop there |
| `AdapterRemoval.FirstCrashSpec` | multiqc/modules/adapterRemoval/adapterRemoval.py:88-93 | there is no crash iff no file fails; otherwise it is the first failing file and its failure |
| `AdapterRemoval.CollectSnoc` | multiqc/modules/adapterRemoval/adapterRemoval.py:88-101 | the files are taken in order: one more file is absorbed after the others, and the first crash is kept once it has happened |
| `AdapterRemoval.AdapterRemovalModule.constructor` | multiqc/modules/adapterRemoval/adapterRemoval.py:28-86 | no read type, flag, sample or result; empty containers, with `paired` holding its two; no distribution maps and no sections |
| `AdapterRemoval.AdapterRemovalModule.SetArType` | multiqc/modules/adapterRemoval/adapterRemoval.py:165-174 | fails exactly as `Classify`; on success the fields give the classified variant; a rejected file has set single-end and collapsed; an `IndexError` sets nothing |
| `AdapterRemoval.AdapterRemovalModule.SetTrimStat` | multiqc/modules/adapterRemoval/adapterRemoval.py:176-192 | the result is `TrimStats` for the current read type, and is left alone on failure |
| `AdapterRemoval.AdapterRemovalModule.SetLenDist` | multiqc/modules/adapterRemoval/adapterRemoval.py:194-263 | the distribution block's rows are written into the current sample's maps, or the first bad row's error is returned; the invariant is kept |
| `AdapterRemoval.AdapterRemovalModule.SetResultData` | multiqc/modules/adapterRemoval/adapterRemoval.py:157-163 | outcome as `InterpretBlocks`; a rejected file writes no distribution entries; the invariant is kept |
| `AdapterRemoval.AdapterRemovalModule.SetStatsAndDist` | multiqc/modules/adapterRemoval/adapterRemoval.py:161-163 | statistics, then distribution, as `InterpretClassified` |
| `AdapterRemoval.AdapterRemovalModule.ParseSettingsFile` | multiqc/modules/adapterRemoval/adapterRemoval.py:120-155 | fresh result, blocks, then `set_result_data`: the fields and maps follow `ParseFile` |
| `AdapterRemoval.AdapterRemovalModule.AddFile` | multiqc/modules/adapterRemoval/adapterRemoval.py:88-101 | one iteration of the file loop: the outcome is `ParseFile`, and unless it crashed the containers and maps are `Absorb` of the old ones |
| `AdapterRemoval.AdapterRemovalModule.StoreRecord` | multiqc/modules/adapterRemoval/adapterRemoval.py:94-101 | the record goes to the container its read type and flag select, and nowhere else |
| `AdapterRemoval.AdapterRemovalModule.AddFiles` | multiqc/modules/adapterRemoval/adapterRemoval.py:88-101 | the loop stops at the first crashing file; without one the state is `Collect(files)` |
| `AdapterRemoval.AdapterRemovalModule.CountsChart` | multiqc/modules/adapterRemoval/adapterRemoval.py:265-303 | appends the alignment sections of the non-empty containers |
| `AdapterRemoval.AdapterRemovalModule.RetainedChart` | multiqc/modules/adapterRemoval/adapterRemoval.py:305-343 | appends the retained/discarded sections of the non-empty containers |
| `AdapterRemoval.AdapterRemovalModule.LengthDistPlot` | multiqc/modules/adapterRemoval/adapterRemoval.py:345-442 | appends the length-distribution sections of the non-empty containers |
| `AdapterRemoval.AdapterRemovalModule.ChartMethod` | multiqc/modules/adapterRemoval/adapterRemoval.py:277-303 | the three `if` blocks append exactly `ChartSections` |
| `AdapterRemoval.AdapterRemovalModule.Report` | multiqc/modules/adapterRemoval/adapterRemoval.py:103-118 | the no-data test and count of the source; when it reports, the sections are counts, then retained, then length charts |
| `AdapterRemoval.TallyAlwaysReports` | multiqc/modules/adapterRemoval/adapterRemoval.py:103-107 | with `paired` holding its two keys the no-data test never fires, and the count is the single-end records plus 2 |
| `AdapterRemoval.RunAdapterRemoval` | multiqc/modules/adapterRemoval/adapterRemoval.py:88-118 | aborts iff some file crashes, with the first one; never reports no data; otherwise the count is the single-end records plus 2, and the sections are those of the collected records |
| `ScsValues.Format` | multiqc/modules/scs_collect/scs_collect.py:85 | `'%s'` is defined for every scalar; only mappings and lists are left undefined |
| `ScsValues.ToInt` | multiqc/modules/scs_collect/scs_collect.py:85 | `int()` fails only with `TypeError`, `ValueError` or an unmodelled case, and with `TypeError` exactly for null, mappings and lists; it is the identity on integers, and on strings it succeeds exactly when `ParseInt` does, with its value |
| `ScsValues.ToIntOfPrinted` | multiqc/modules/scs_collect/scs_collect.py:85 | `int()` reads back every integer `str()` prints |
| `ScsFlatten.FlatItem` | multiqc/modules/scs_collect/scs_collect.py:85 | one sub-entry succeeds iff its value converts and the title formats; `int(value)` is evaluated first, so its error wins; the value stored is `int(value)` |
| `ScsFlatten.FlatKeyCollision` | multiqc/modules/scs_collect/scs_collect.py:85 | every key has the form title, `_`, subtype, and under one title two subtypes collide iff they print the same |
| `ScsFlatten.ShapeError` | multiqc/modules/scs_collect/scs_collect.py:82-84 | reading `type` and `values` of an entry succeeds iff it is a mapping with both keys and `values` is a mapping; a non-mapping entry is a `TypeError`, a missing key a `KeyError`, a `values` that is no mapping an `AttributeError` |
| `ScsFlatten.EntryFailsExactly` | multiqc/modules/scs_collect/scs_collect.py:82-85 | an entry fails iff some exception is possible for it |
| `ScsFlatten.KeysOverAdd` | multiqc/modules/scs_collect/scs_collect.py:81 | the keys of the entries done grow by the keys of the next entry |
| `ScsFlatten.DoneKeysAdd` | multiqc/modules/scs_collect/scs_collect.py:84 | the keys of the sub-entries done grow by the key of the next one |
| `ScsFlatten.FlattenItem` | multiqc/modules/scs_collect/scs_collect.py:85 | one inner iteration either raises an exception possible for the entry or adds the sub-entry's key and value |
| `ScsFlatten.FlattenEntry` | multiqc/modules/scs_collect/scs_collect.py:84-85 | the inner loop either raises an exception possible for the entry, or adds exactly the entry's keys, each new value produced by one of its sub-entries |
| `ScsFlatten.PrepareGt` | multiqc/modules/scs_collect/scs_collect.py:78-87 | succeeds iff every entry can be read; a failure is one the entries can raise; on success the table has exactly the entries' keys, each holding the value some entry produces for it |
| `ScsFlatten.FlatKeysEmpty` | multiqc/modules/scs_collect/scs_collect.py:71-72 | the table is empty iff no entry has a sub-entry |
| `ScsFlatten.ImageSize` | multiqc/modules/scs_collect/scs_collect.py:84-85 | mapping sub-entries to their keys gives no more keys than sub-entries |
| `ScsFlatten.FlatKeysBound` | multiqc/modules/scs_collect/scs_collect.py:84-85 | the table has at most as many keys as there are sub-entries in all entries |
| `ScsCollect.SeparationIgnores` | multiqc/modules/scs_collect/scs_collect.py:65-66 | a key that is neither a machine integer nor `rnacomposition` changes neither part |
| `ScsCollect.SeparationKeeps` | multiqc/modules/scs_collect/scs_collect.py:61-62 | a machine-integer key becomes a genome entry and leaves the composition alone |
| `ScsCollect.SeparationComposition` | multiqc/modules/scs_collect/scs_collect.py:63-64 | the value under `rnacomposition` is the composition, and it is no genome entry |
| `ScsCollect.GenomeEntries` | multiqc/modules/scs_collect/scs_collect.py:60-62 | the entries under a machine-integer key; specified by `SeparateData`, `SeparationKeeps` and `SeparationIgnores` |
| `ScsCollect.CompositionOf` | multiqc/modules/scs_collect/scs_collect.py:57-64 | the value under `rnacomposition`, or `None`; specified by `SeparateData` and `SeparationComposition` |
| `ScsCollect.SeparateData` | multiqc/modules/scs_collect/scs_collect.py:56-66 | the loop over the document's items yields its genome entries and its composition, in any iteration order |
| `ScsCollect.ParseInputFile` | multiqc/modules/scs_collect/scs_collect.py:53-76 | succeeds iff the document is a mapping whose entries all flatten; an error is one the document can raise; `'c'` is always there, and `'gt'` is there iff some entry has a sub-entry, holding a possible flattened table |
| `ScsCollect.CrashesExactly` | multiqc/modules/scs_collect/scs_collect.py:36-39 | a report aborts the module iff some exception is possible for it, including the `KeyError` of a missing `'gt'` |
| `ScsCollect.StatusOf` | multiqc/modules/scs_collect/scs_collect.py:33-41 | aborts, dropped or kept; specified by `CrashesExactly`, `KeptNamesSpec` and `AddFile` |
| `ScsCollect.Absorb` | multiqc/modules/scs_collect/scs_collect.py:39-41 | a kept report replaces its sample's entries in both tables; specified by `AddFile` |
| `ScsCollect.Collect` | multiqc/modules/scs_collect/scs_collect.py:31-41 | the reports absorbed in order; specified by `CollectSamples`, `CollectLastWins` and `CollectFromLastKept` |
| `ScsCollect.Statuses` | multiqc/modules/scs_collect/scs_collect.py:31-41 | one status per report |
| `ScsCollect.StatusesAt` | multiqc/modules/scs_collect/scs_collect.py:31-41 | status i is that of report i |
| `ScsCollect.KeptAmongSnoc` | multiqc/modules/scs_collect/scs_collect.py:39-41 | one more report adds its name to the kept names iff it is kept |
| `ScsCollect.KeptNamesSpec` | multiqc/modules/scs_collect/scs_collect.py:39-41 | a name is kept iff some report of that name has a table and a composition |
| `ScsCollect.CollectSamples` | multiqc/modules/scs_collect/scs_collect.py:39-41 | both tables hold exactly the kept names, so their key sets are identical |
| `ScsCollect.CollectLastWins` | multiqc/modules/scs_collect/scs_collect.py:39-41 | a sample's entries are those of the last kept report of that name |
| `ScsCollect.LastKept` | multiqc/modules/scs_collect/scs_collect.py:39-41 | the document of the last kept report of a sample is a mapping whose report is kept |
| `ScsCollect.CollectFromLastKept` | multiqc/modules/scs_collect/scs_collect.py:39-41 | a sample is in either table iff it has a last kept report, and then its composition and its table keys come from that report |
| `ScsCollect.TablesFromSnoc` | multiqc/modules/scs_collect/scs_collect.py:39-41 | one more report keeps every genome-type table a possible flattening of its sample's last kept report |
| `ScsCollect.FirstCrashSpec` | multiqc/modules/scs_collect/scs_collect.py:31-39 | there is no crash iff no report aborts; otherwise it is the first report that does |
| `ScsCollect.CollectSnoc` | multiqc/modules/scs_collect/scs_collect.py:31-41 | the reports are taken in order: one more is absorbed after the others, and the first crash is kept |
| `ScsCollect.SectionLabels` | multiqc/modules/scs_collect/scs_collect.py:89-111 | the genome-types section is added as `genome types and proportions`, anchor `genome_types_plot`, plot id `gt_plot`; the composition section as `rna composition`, anchor `rna_composition_plot`, with no plot id |
| `ScsCollect.KeysOf` | multiqc/modules/scs_collect/scs_collect.py:40 | the key view of the genome-type tables has the same samples |
| `ScsCollect.KeysOfUpdate` | multiqc/modules/scs_collect/scs_collect.py:40 | storing a table under a sample stores its keys in the key view |
| `ScsCollect.ScsCollectModule.constructor` | multiqc/modules/scs_collect/scs_collect.py:21-24 | both tables empty, no sample, no sections |
| `ScsCollect.ScsCollectModule.AddFile` | multiqc/modules/scs_collect/scs_collect.py:32-41 | one iteration: it crashes iff the report aborts, with an exception possible for it; it keeps iff the report has a table and a composition, storing a possible flattened table under the name and changing no other table; otherwise the genome-type tables are unchanged; unless it crashed, the tables are `Absorb` of the old ones |
| `ScsCollect.ScsCollectModule.Keep` | multiqc/modules/scs_collect/scs_collect.py:40-41 | the sample goes into both tables, which keep equal key sets |
| `ScsCollect.ScsCollectModule.AddFiles` | multiqc/modules/scs_collect/scs_collect.py:31-41 | the loop stops at the first aborting report; without one the composition table and the key set of each genome-type table are those of `Collect(files)`, and each genome-type table is a possible flattening of its sample's last kept report |
| `ScsCollect.ScsCollectModule.PlotGenomeTypes` | multiqc/modules/scs_collect/scs_collect.py:89-103 | appends the genome-types section over the genome-type table |
| `ScsCollect.ScsCollectModule.PlotRnaComposition` | multiqc/modules/scs_collect/scs_collect.py:105-111 | appends the RNA-composition section over the composition table |
| `ScsCollect.ScsCollectModule.Report` | multiqc/modules/scs_collect/scs_collect.py:43-51 | no report iff no sample is kept; otherwise the count is twice the kept samples, and the two sections follow in order |
| `ScsCollect.RunScsCollect` | multiqc/modules/scs_collect/scs_collect.py:31-111 | aborts iff some report raises, at the first one; no data iff nothing aborts and no sample is kept; otherwise the count is twice the kept samples, the two sections have the names and anchors `plot_genome_types` and `plot_rna_composition` give them, and only the genome-types plot has the id `'gt_plot'`, the composition section holds the collected compositions, and the genome-types section holds, per kept sample, a table with the collected keys that is a possible flattening of its last kept report |

## Left out

- Finding the log files, reading them, logging and `write_data_file` are host I/O. Each file is given as its sample name and its lines, or as its already-loaded YAML document.
- `yaml.load` is an external parser. A report is given as the loaded `Value`. Keys that a Python dict would merge, such as `1` and `True`, are assumed to be distinct keys already.
- Plot rendering (`bargraph.plot`, `linegraph.plot`), the HTML of each section and the `pconfig` dictionaries are outside the model. A section carries its chart, its variant and the data handed to the plot. Its name, anchor, description and plot id are fixed functions of the chart and variant.
- A crash in the middle of a row is not modelled. The model converts a whole row, then checks its width. The source writes the first categories of a too-short row before `IndexError`. The module aborts either way.
- Partial state left behind by a file that crashes is not modelled: statistics already set, maps already written. The module aborts in that case too.
- `AdapterRemovalFormat.TrimStats`: `iteritems` visits the four pattern fields in hash order. The model reads them in the order total, unaligned, aligned, retained. This only decides whether an `IndexError` or a `ValueError` is reported when two lines are bad.
- `ScsValues.Format`: `'%s'` of a mapping or a list title depends on `repr` and dict order. It is not modelled, and such a title yields the `Unmodelled` failure. `str()` of other scalars, such as floats and dates, is given as their text.
- `ScsValues.ToInt`: `int()` of a float (truncation) or a date is not modelled, and yields the `Unmodelled` failure.
- `ScsFlatten.PrepareGt`: when two sub-entries flatten to the same key, the source keeps the one it visits last. The visiting order is unspecified, so the model proves only that the stored value is produced by one of the colliding sub-entries.
- `ScsCollect.ScsCollectModule.AddFile`, `ScsCollect.ScsCollectModule.AddFiles`, `ScsCollect.RunScsCollect`: the flattened table kept for a sample is stated through its keys and the provenance of its values (`PossibleGt`), for the same reason.
- Python 2 `str` versus `unicode` distinctions and the byte encoding of the files are not modelled. Strings are sequences of characters.
- Integers are unbounded. The source's counts do not overflow in Python either. 64-bit width matters only for `type(key) is int`, which `IsPyInt` models.
