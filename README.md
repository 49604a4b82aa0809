# PhyloMill flatten reconciliation and supermatrix bookkeeping, in Dafny

This project models the core of PhyloMill's `phylo` workflow
(`workflows/phylo.py`) together with two helpers it relies on: the lineage
strings of `krpy/krncbi.py` and the name lookup `names_for_ncbi_taxid` of
`krncbi.py`.

At the centre is the **flatten step**. For each locus and organism, it
reconciles three things:
- the organism's active raw records;
- the recorded ancestry of its single "flat" record;
- the sequence (`.fasta`) and alignment (`.phy`) files on disk.

The step goes as follows:
- It detects which records were deleted or added, and whether sequence
  content changed (ignoring case).
- It blacklists each deleted record.
- It chooses by the size of the remaining working set how to regenerate
  the flat record: delete it, retrim a single record, realign, or leave it
  untouched.
- It rewrites the flat record's ancestry so that its parents are exactly
  the remaining record ids. When an organism has no flat record yet, the
  step creates one.

A low identity score of a new alignment removes `align` and `concatenate`
from the command set. The program's other pieces are modelled too:
- command parsing and `autopilot`;
- the `blacklist_gi` and `whitelist_gi` commands;
- grouping of records by organism;
- the taxon label each flat record receives, and outgroup detection on
  the concatenated alignment;
- the locus presence/absence matrix and the two partition files;
- the lineage item format and its parser;
- the sorted NCBI name lookup.

## Modules

| file | module | content |
|---|---|---|
| `util.dfy` | `Util` | `Option`, `Result`, an order-keeping `Filter` |
| `text.dfy` | `Text` | Python's `str.split`, `join`, `replace`, `strip` and `upper` as functions, with the split/join lemmas the round trips need |
| `store.dfy` | `Store` | the database tables as the value `Db`, one function per update, and the class `RecordStore` with one method per database call and the state at the last `save()` |
| `commands.dfy` | `Commands` | `--commands` parsing, `autopilot`, the identity gate |
| `curation.dfy` | `Curation` | `blacklist_gi`, `whitelist_gi` |
| `detect.dfy` | `Detect` | the change detection for an existing flat record |
| `flatten.dfy` | `Flatten` | deletions, the regeneration branches, the ancestry rewrite, creation of a flat record, one organism on the store |
| `locus.dfy` | `Locus` | the loop over the organisms of one locus, carrying the store and the commands from one organism to the next |
| `grouping.dfy` | `Grouping` | records grouped by organism |
| `lineage.dfy` | `Lineage` | `get_lineages` item format and `parse_lineage_string_list` |
| `taxnames.dfy` | `TaxNames` | `names_for_ncbi_taxid` with its stable descending sort |
| `supermatrix.dfy` | `Supermatrix` | taxon labels, outgroup detection, presence matrix, partition files |

Each loop of the modelled code becomes a `method` with a `while` loop,
except the loops that "## Left out" names. The method is proved equal to a
specification function, usually a left fold over its input. The properties of the program are stated as lemmas about those
functions. The database is a class, and each state-changing method states
its new state as a `Db` function of the old one. A crash in the source
(an `IndexError` or `KeyError`) is an `Err` result.

One property of the labels is worth knowing. A label is the name terms
joined by `||`. When its last term ends in `|`, the outgroup marker is no
longer the last `||`-separated piece, so the outgroup check misses it. A
common name ending in `", "` is such a term, because `", "` becomes `"|"`.
`Supermatrix.OutgroupMarkHidden` shows it: the label `s||x|||OUTGROUP` of
the terms `s` and `x|` splits into `s`, `x` and `|OUTGROUP`.
`Supermatrix.OutgroupDetectedIff` therefore assumes that the joined terms
do not end in `|`, and do not end with `OUTGROUP` either. Name terms that
merely contain `|` or `, ` elsewhere are covered.

The lookup of a record by its gi (`DB.get_record` and
`db_get_row_ids('records', {'ncbi_gi': gi})[0]`) is computed from the
records table (`Store.Db.RecordForGi`). It picks the
lowest row id that carries the gi, and there is no separate index that
could drift from the table.

## Model

| member | source | states |
|---|---|---|
| Commands.ParseCommands | workflows/phylo.py:79-81 | no argument, or an empty one, gives no command set; otherwise a command is in the set exactly when it is the stripped form of some comma-separated piece |
| Commands.ParseJoinRoundTrip | workflows/phylo.py:81 | plain commands joined by commas parse back into exactly the set of those commands |
| Commands.Autopilot | workflows/phylo.py:413-414 | `autopilot` replaces the whole set by the six pipeline steps; otherwise the set is unchanged |
| Commands.Gate | workflows/phylo.py:1206-1213 | removes `align` and `concatenate` and keeps every other command; the result is a subset |
| Commands.GateOnScore | workflows/phylo.py:1206-1213 | below the bottom of the identity range both commands are gone; at or above it the set is unchanged |
| Commands.GateIdempotent | workflows/phylo.py:1352-1359 | gating twice equals gating once, and two scores gate exactly when either is low |
| Flatten.GateCommands | workflows/phylo.py:1206-1213 | the two guarded `COMMANDS.remove` calls compute the score gate |
| Curation.BlacklistGiCases | workflows/phylo.py:789-827 | the command exits exactly when no gi is given; it fails exactly when a gi is given that no stored record carries; otherwise it blacklists through the lowest-id record that carries the gi |
| Curation.BlacklistEffects | workflows/phylo.py:796-825 | the record looked up carries the gi; every record carrying the gi is switched off and no other record changes; exactly one `user_deleted` row with the looked-up record's version and reference is added; exactly the ancestry edges whose parent is that record are dropped |
| Curation.WhitelistEffects | workflows/phylo.py:844-853 | every record carrying the gi is switched on; exactly the blacklist rows of that gi are removed; the ancestry is unchanged |
| Curation.WhitelistAfterBlacklist | workflows/phylo.py:789-855 | whitelisting after blacklisting leaves the records and the blacklist as whitelisting alone would: records with the gi end up active even if they were inactive before, and older blacklist rows of the gi are gone too; the dropped ancestry edges stay dropped |
| Curation.BlacklistGiCommand | workflows/phylo.py:789-827 | the command on the store equals `BlacklistGi`: it exits without a gi, fails when no stored record carries the gi, and otherwise updates and saves; an exit or a failure saves nothing |
| Curation.WhitelistGiCommand | workflows/phylo.py:832-855 | the command on the store equals `WhitelistGi`, saving exactly when a gi was given |
| Store.InsertAncestryAllEdges | workflows/phylo.py:1283-1288 | inserting one edge per parent adds exactly those edges and changes nothing else |
| Store.AddRecordParents | workflows/phylo.py:1423-1451 | a record added to a valid store gets the fresh id, the row, the sequence and exactly the given parents; other records' parents are unchanged and the store stays valid |
| Store.RecordStore.AddRecord | workflows/phylo.py:1423-1451 | `add_record` on the store returns the fresh id and leaves the state `AddRecord` describes |
| Store.RecordStore.SetActiveByGi | workflows/phylo.py:809-812 | switches the active flag of every record with the gi |
| Store.RecordStore.DeleteAncestryByParent | workflows/phylo.py:822-825 | drops the edges whose parent is the record |
| Store.RecordStore.Save | workflows/phylo.py:827 | the saved state becomes the current state |
| Store.Db.RecordForGi | workflows/phylo.py:796-801 | the lookup fails exactly when no record carries the gi; otherwise it gives the lowest id among the records carrying it |
| Store.Db.GiIndex | workflows/phylo.py:1050-1062 | the gi dictionary has a key exactly for the gis some record carries, and maps each to the record `RecordForGi` finds |
| Detect.DetectChanges | workflows/phylo.py:1030-1125 | the detection loops compute `DetectSpec`: files probed, existing file chosen, gis resolved, id sets and content flags set |
| Detect.DetectCrashIff | workflows/phylo.py:1050-1062 | detection fails exactly when a record of the file it reads has a gi that no stored record carries, and the gi it reports is carried by no stored record |
| Detect.RedoAndExisting | workflows/phylo.py:1030-1048 | `redo_aln` holds exactly when neither file exists; the sequence file is read in preference to the alignment file |
| Detect.DeletedAndNew | workflows/phylo.py:1067-1082 | the deleted ids are the symmetric difference between file ids and ancestry, and only when a file exists; the new ids are the active ids missing from the ancestry |
| Detect.FirstUnresolvedNone | workflows/phylo.py:1050-1062 | no unknown file gi is reported exactly when every file gi resolves, and a reported gi is unknown |
| Detect.FileIdsOfEntries | workflows/phylo.py:1050-1062 | `rec_ids_in_file` holds exactly the stored ids of the file's gis |
| Detect.GiDictInverts | workflows/phylo.py:1050-1062 | the id-to-gi dictionary has one key per file record id, and each maps to a file gi that resolves to that id |
| Detect.EntriesAgreeIff | workflows/phylo.py:1108-1125 | a stored row agrees exactly when every file record with its gi has the same residues up to case |
| Detect.AlnAgreesIff | workflows/phylo.py:1108-1125 | `aln_match` stays true exactly when every stored alignment row named in the file agrees up to case |
| Detect.ResolveFileGis | workflows/phylo.py:1050-1062 | the gi loop fails at the first unknown gi, and otherwise yields the id set and the id-to-gi dictionary |
| Detect.RowAgrees | workflows/phylo.py:1110-1123 | the inner comparison loop computes `EntriesAgree` |
| Detect.AlignmentMatches | workflows/phylo.py:1108-1125 | the loop over the stored alignment computes `AlnAgrees` |
| Flatten.Remaining | workflows/phylo.py:1130-1141 | the working set after removals keeps its order and holds exactly the records whose ids were not deleted |
| Flatten.DeletionEffects | workflows/phylo.py:1130-1168 | each deleted id in the working set is made inactive, blacklisted as `user_deleted`, and its parent edges are dropped; deleted ids not in the working set change nothing |
| Flatten.ApplyDeletionsOn | workflows/phylo.py:1130-1168 | the deletion loop on the store leaves `ApplyDeletions` and returns the remaining working set, whatever order the deleted ids are visited in |
| Flatten.FindRecord | workflows/phylo.py:1134-1137 | the search finds the first record with the id, or none when no record has it |
| Flatten.IdListIds | workflows/phylo.py:1172-1174 | the parent list holds exactly the ids of the working set |
| Flatten.ProduceEffects | workflows/phylo.py:1276-1307 | a produced flat locus gets exactly the working set's ids as parents and the new sequence; no other record's parents, no row and no alignment change |
| Flatten.ExistingFlatAncestry | workflows/phylo.py:1130-1307 | after regeneration, a produced flat record's ancestry is exactly the active ids minus the deleted ones |
| Flatten.FinishAncestry | workflows/phylo.py:1276-1318 | finishing a produced locus gives the flat record exactly the working set as parents |
| Flatten.FinishStores | workflows/phylo.py:1276-1318 | finishing keeps the alignments and stores the new sequence of a produced locus |
| Flatten.RegenerateTouchesAlignments | workflows/phylo.py:1178-1274 | regeneration changes only the store's alignments |
| Flatten.RegenerateBranches | workflows/phylo.py:1178-1274 | when realignment is wanted, the stored alignment becomes the rows of the `.phy` alignment and the new sequence its upper-cased consensus; one record drops the alignment rows; otherwise nothing changes and nothing is produced |
| Flatten.BranchSelection | workflows/phylo.py:1178-1318 | no record left deletes the flat record; one record deletes its alignment rows; several with a change store the consensus; several without one leave the store as it was |
| Flatten.SingleBranch | workflows/phylo.py:1238-1274 | a differing file sequence wins, upper-cased; otherwise only a deletion or a redo retrims, and the trim is produced only when it differs up to case or on redo |
| Flatten.TrimsNone | workflows/phylo.py:1185-1200 | without redo and without new ids nothing is trimmed |
| Flatten.TrimsAll | workflows/phylo.py:1185-1200 | on redo every record of the working set is trimmed, in order |
| Flatten.TrimsOfNew | workflows/phylo.py:1185-1200 | without redo, each trim belongs to a record with a new id |
| Flatten.ProduceOn | workflows/phylo.py:1276-1307 | the ancestry loop on the store computes `Produce` |
| Flatten.RealignOn | workflows/phylo.py:1178-1236 | the realignment branch on the store computes `Realign` and changes the store as its result says |
| Flatten.SingleOn | workflows/phylo.py:1238-1274 | the single-record branch on the store computes `Single` |
| Flatten.ExistingFlatOn | workflows/phylo.py:1030-1318 | the whole treatment of an existing flat record on the store computes `ExistingFlat` |
| Flatten.ResolveRows | workflows/phylo.py:1370-1395 | on success every aligned gi is carried by a stored record with a sequence, and each row holds the id of the record looked up for it and the upper-cased aligned residues; it fails exactly when some aligned gi is carried by no record or its record has no sequence |
| Flatten.ResolveAlignedRows | workflows/phylo.py:1370-1395 | the loop over the aligned records computes `ResolveRows` |
| Flatten.AddFlatEffects | workflows/phylo.py:1423-1451 | the new id holds the flat row, its sequence and exactly the working set as parents, and an alignment exactly when there is more than one row |
| Flatten.NewFlatEffects | workflows/phylo.py:1322-1451 | a produced new flat record has the whole working set as parents and the trim or the consensus as its sequence; when nothing is produced the store is untouched |
| Flatten.NewFlatOn | workflows/phylo.py:1322-1451 | creating a flat record on the store computes `NewFlat` |
| Flatten.ExistingKeepsRecords | workflows/phylo.py:1008-1318 | treating an existing flat record adds no record |
| Flatten.CreatedOnlyWhenNoFlat | workflows/phylo.py:1008-1022 | a new flat record appears exactly when the organism has none, its working set is non-empty, and a locus was produced |
| Flatten.CommandsOnlyGated | workflows/phylo.py:1206-1213 | for any organism, only `align` and `concatenate` can disappear from the commands, and none is added |
| Flatten.RegenerateGated | workflows/phylo.py:1206-1213 | regeneration changes the commands only by the gate |
| Flatten.NewFlatGated | workflows/phylo.py:1352-1359 | creating a flat record changes the commands only by the gate |
| Flatten.FlattenFailures | workflows/phylo.py:1008-1451 | a crash on an unknown file gi happens exactly when the organism has one flat record and its detection fails; a failed realignment needs an existing flat record; an unresolved aligned record needs a new flat record over more than one record |
| Flatten.FlattenOrganismOn | workflows/phylo.py:1008-1453 | one organism on the store computes `FlattenOrganism`, saves on success and saves nothing on a crash |
| Locus.FlattenOrganismsErrorPropagates | workflows/phylo.py:975-1453 | a crash at some organism is the crash of the whole loop over the organisms |
| Locus.LocusCommandsOnlyGated | workflows/phylo.py:975-1453 | over all the organisms of a locus, only `align` and `concatenate` can disappear from the commands, and none is added |
| Locus.GroupDistinct | workflows/phylo.py:951-956 | the records grouped under one organism keep distinct ids |
| Locus.FlattenLocusOn | workflows/phylo.py:951-1457 | the grouping and the loop over the organisms on the store compute `FlattenLocus`; on success the store is saved in its final state; after a crash the saved state is the one the last finished organism left, or the earlier saved state when the first organism crashes |
| Grouping.WithKey | workflows/phylo.py:951-956 | the reference selection holds only records of `s` with key `k` |
| Grouping.GroupContents | workflows/phylo.py:951-956 | the dictionary has a key exactly for each organism that occurs; its list is exactly that organism's records, in order, and never empty |
| Grouping.GroupByOrganism | workflows/phylo.py:965-970 | the grouping loop computes `GroupOf` |
| Lineage.FormatLineage | krpy/krncbi.py:254-259 | one item per taxon, each `name=…;rank=…;taxid=…;` |
| Lineage.ParseLineageStringList | krpy/krncbi.py:266-288 | the parser computes `ParseAll` and, on success, returns one dictionary per string |
| Lineage.ParseOneString | krpy/krncbi.py:272-284 | the segment loop of one string computes `ParseItem` |
| Lineage.OneDictionaryPerString | krpy/krncbi.py:266-288 | a successful parse has one dictionary per input string, each that string's own |
| Lineage.NameListInOrder | krpy/krncbi.py:281-282 | `name_list` is every `name` value, one per occurrence, in string and segment order |
| Lineage.ItemNames | krpy/krncbi.py:281-282 | one string contributes its `name` values in segment order |
| Lineage.TrailingSeparatorIgnored | krpy/krncbi.py:275-277 | a trailing `;` does not change a string's parse |
| Lineage.SegmentCases | krpy/krncbi.py:275-283 | a segment fails exactly when it is non-empty without `=`; it is skipped exactly when empty or starting with `=` |
| Lineage.ItemErrorIff | krpy/krncbi.py:272-284 | a string fails exactly when one of its segments fails |
| Lineage.KeyPresentIff | krpy/krncbi.py:279-283 | a key is in the dictionary exactly when some segment sets it |
| Lineage.LastValueWins | krpy/krncbi.py:279-283 | a repeated key keeps the value of its last segment |
| Lineage.ItemRoundTrip | krpy/krncbi.py:258 | an item for a taxon whose fields hold no `;` or `=` parses back into exactly its three fields, with its name listed |
| Lineage.LineageRoundTrip | krpy/krncbi.py:254-288 | formatting a lineage and parsing it gives one three-field dictionary per taxon and the taxa's names in order |
| TaxNames.NamesForTaxid | krncbi.py:137-174 | the lookup computes `NamesFor`, and its result is non-increasing by authority |
| TaxNames.SortPermutes | krncbi.py:173 | the sort returns a permutation of its input |
| TaxNames.SortSorts | krncbi.py:173 | the sort orders by non-increasing authority, with `None` lowest |
| TaxNames.SortStable | krncbi.py:173 | the names sharing an authority keep their order |
| TaxNames.KeyLeProperties | krncbi.py:173 | the sort key order is reflexive, total and transitive |
| TaxNames.NamesCount | krncbi.py:148-170 | there is one output name per row of the id with a kept class |
| TaxNames.NamesOrigin | krncbi.py:148-170 | every output name is the parse of a row of that id and class |
| TaxNames.EqualAuthoritiesInClassOrder | krncbi.py:152-173 | names with equal authority come authority rows first, then synonyms, then scientific names |
| Supermatrix.Binomial | workflows/phylo.py:1485 | the binomial is the organism name with each space replaced by `_` |
| Supermatrix.CommonLabel | workflows/phylo.py:1486 | the common label holds no space and no quote, and every character comes from the name or is `\|` or `_` |
| Supermatrix.LineageTaxIds | workflows/phylo.py:1493 | the tax ids exist exactly when every entry has `taxid`, and are those values in order |
| Supermatrix.CollectTaxIds | workflows/phylo.py:1493 | the comprehension computes `LineageTaxIds` |
| Supermatrix.FindOutgroup | workflows/phylo.py:1492-1499 | the loop finds an outgroup exactly when some tax id is an outgroup id |
| Supermatrix.FindRankName | workflows/phylo.py:1509-1512 | the rank loop computes `RankName` |
| Supermatrix.CollectNameTerms | workflows/phylo.py:1501-1513 | the term loop computes `NameTerms` |
| Supermatrix.NameTermsOnePerTerm | workflows/phylo.py:1501-1513 | when no lookup fails, every configured term yields exactly one name, in order |
| Supermatrix.RankNameFirst | workflows/phylo.py:1509-1512 | a rank lookup yields the first entry of that rank, or the rank itself exactly when no entry has it |
| Supermatrix.LabelFlatRecord | workflows/phylo.py:1483-1521 | relabelling a flat record computes `TaxonLabel`, including the lineage and lookup errors |
| Supermatrix.TaxonLabels | workflows/phylo.py:1483-1525 | the relabelling loop over the flat records of a locus, stopped by the first record that fails |
| Supermatrix.LabelFlatRecords | workflows/phylo.py:1483-1525 | the loop computes `TaxonLabels` |
| Supermatrix.OneLabelPerRecord | workflows/phylo.py:1483-1525 | the relabelling succeeds exactly when every record's label can be built, and then each record gets its own label, in order |
| Supermatrix.OutgroupDetectedIff | workflows/phylo.py:1612-1616 | when the joined terms end neither in `\|` nor with `OUTGROUP`, a label is detected as outgroup exactly when it was built with the mark |
| Supermatrix.OutgroupMarkHidden | workflows/phylo.py:1521 | for terms without `\|`, a label whose last term ends in `\|` is built as `a\|\|x\|\|\|OUTGROUP` and is not detected as outgroup |
| Supermatrix.OutgroupTaxa | workflows/phylo.py:1612-1616 | the ids collected are exactly the outgroup-labelled ids, in order |
| Supermatrix.AllTaxaIff | workflows/phylo.py:1571-1578 | a taxon gets a row exactly when some locus alignment holds it |
| Supermatrix.PresenceMatrix | workflows/phylo.py:1569-1582 | the two loops build `Presence` |
| Supermatrix.PresenceCellIff | workflows/phylo.py:1569-1582 | with distinct locus names, a cell is `1` exactly when the taxon is in that locus's alignment, and `0` otherwise; each row has one cell per locus |
| Supermatrix.PresenceCount | workflows/phylo.py:1587-1589 | the count column is the number of loci whose alignment holds the taxon |
| Supermatrix.WritePresence | workflows/phylo.py:1585-1589 | with the keys visited once each, the file is the header followed by the line of each taxon in the dictionary's order |
| Supermatrix.OneLinePerTaxon | workflows/phylo.py:1587 | the key order has one entry per taxon of the matrix: as many entries as taxa, every taxon among them and none twice |
| Supermatrix.PresenceLineFields | workflows/phylo.py:1587-1589 | a taxon line splits on commas into the taxon, its count and its cells, and the count reads back as a number |
| Supermatrix.WritePartitions | workflows/phylo.py:1629-1635 | the partition loop computes `Partitions`, failing with `IndexError` when there are more partitions than locus names |
| Supermatrix.PartitionLineRoundTrip | workflows/phylo.py:1634 | a CSV partition line reads back into the name and both boundaries |
| Supermatrix.RaxmlLineRoundTrip | workflows/phylo.py:1632 | a RAxML line splits on `=` into the name declaration and the range, and the range into both boundaries |
| Text.ReplaceChar | workflows/phylo.py:1485 | replacing one character by another maps it everywhere and leaves all else |
| Text.ReplaceDeletes | workflows/phylo.py:1486 | replacing a character by nothing leaves no occurrence of it |
| Text.SplitJoinAvoiding | workflows/phylo.py:81 | splitting the join of pieces that avoid the separator gives back the pieces |
| Text.SplitLastIsSuffix | workflows/phylo.py:1614 | the last piece of a split is a suffix of the string split |
| Text.SplitLastAfterBars | workflows/phylo.py:1614 | after a text not ending in `\|`, the text after `\|\|` is the last piece of the split when it holds no `\|` |
| Text.DecimalRoundTrip | workflows/phylo.py:1587-1589 | `str` of a number reads back as that number |
| Util.Filter | workflows/phylo.py:1612-1616 | the kept elements are elements satisfying the predicate, every such element is kept, and there are no more of them than the input holds |
| Util.FilterAppend | workflows/phylo.py:1612-1616 | filtering keeps order: the filter of a concatenation is the concatenation of the filters |
| Util.MapResultsOk | workflows/phylo.py:1483-1525 | mapping a failing function succeeds exactly when it succeeds on every element, and then maps each element to its own result |

## Left out

- Network access is not modelled: the Entrez searches and downloads, the `efetch` in `get_lineages`, and loading the NCBI names table.
- Command-line handling, the configuration files, logging, directory creation and time stamps are not modelled.
- Trimming, `flatten_locus` and the multiple alignment behind it, the consensus, `update_record_alignment` and `parse_organism_name` are opaque services. They are passed in as functions (`Flatten.Services`, the `parse` argument).
- Sequence contents are strings. The edits of `produce_seq_edits` and the Biopython record types are not modelled. A stored alignment is a list of (record id, residues) rows.
- FASTA, PHYLIP and CSV file syntax is not modelled. A file is `Option<seq<Entry>>`, where `None` means it does not exist, and its records are named by gi. Files written or removed before a crash are not modelled. In particular, the realignment branch removes both files (phylo.py:1180-1183) before `flatten_locus` can fail (1206). After that crash the files are gone, so the next run redoes the alignment (1034). `Err(RealignFailed)` does not record this.
- The numerical cutoff computed with numpy in `flatten_locus` is not modelled. The identity score and the bottom of the accepted range are parameters of type `real`.
- The RAxML seeds and run scripts are not modelled. The column ranges from `kralign.concatenate` are an input to `Supermatrix.WritePartitions`.
- `Text.Upper` only folds ASCII letters, and no Unicode case mapping is modelled.
- The loop over the loci (phylo.py:865) and its two database queries for a locus's raw and flat records (876-880, 959-963) are not modelled. `Locus.FlattenLocusOn` starts from the two record lists.
- The sort of a locus's records by decreasing sequence length (phylo.py:882) is not modelled. `Locus.FlattenLocusOn` takes the records in whatever order it is given, and nothing proved depends on that order.
- The reference records of a locus (phylo.py:886-943) are not modelled. They only feed the trimming service.
- The relabelling loop also clears `description` and `name` (phylo.py:1523-1524), which the model leaves out. The inter-taxon alignment after it is a service and not modelled.
- Store.Db.RecordForGi: `DB.get_record` by gi and `DB.db_get_row_ids(...)[0]` are taken to find the record with the lowest row id that carries the gi. The database code behind them is not part of this model.
- Locus.FlattenOrganisms: each organism is given its own files (`files(o)`), and the files an organism leaves behind are not carried to the next. In the source the paths come from the locus name and the flattened organism name (phylo.py:990-993). Two organisms with the same flattened name share one `.fasta`/`.phy` pair, and the model does not capture that sharing.
- Iteration order of Python sets and dictionaries is left out. The loop over the organisms of a locus takes their order as a parameter. The deletion loop is proved for any visiting order. `Supermatrix.WritePresence` receives the key order as a parameter, which lists every taxon of the matrix exactly once.
- Flatten.IdList: the source sorts the ids of the working set (phylo.py:1172-1174). The model keeps working-set order and proves only the set of ids, which is all the ancestry rewrite uses.
- Flatten.Detected: with more than one flat record for an organism, the source only logs and keeps the initial flags. The model returns `UNCHECKED` there and does not model the log.
- Flatten.DistinctIds: record ids are assumed unique in the working set, because they are table row ids.
- Commands.ParseCommands: when `--commands` is missing, the source crashes when it next tests membership in `None`. The model returns `None` and leaves the crash to the caller.
- Lineage.ParseOneString parses one string. The source runs that same loop inline in the outer loop.
- Text: general split/join lemmas are proved only for one-character separators. `||` is handled by `Text.SplitJoinAvoiding` on pieces that avoid `|`, and by the last-piece lemmas `Text.SplitLastIsSuffix` and `Text.SplitLastAfterBars`.
- Supermatrix.PresenceCellIff and Supermatrix.PresenceCount assume distinct locus names, because the locus names come from the keys of a dictionary.
- Supermatrix.TaxonLabel: an organism's own tax ids are natural numbers written in decimal. The outgroup ids are compared as strings, as in the source.
- Curation: the blacklist is a set of rows, so a repeated identical blacklist row is not counted twice.
