# GO annotation file converters (goa) in Dafny

This project models the two converters of the `goa` tools, which translate between the Gene Ontology
annotation formats:

- GAF to GPAD + GPI. `generateGpiGpad` reads a GAF 1.0 or 2.0 file and checks each row. It resolves
  the row's ECO evidence code, its GPAD relationship and, for GAF 2.0, the protein named in the
  gene-product-form column. It then writes one GPAD row and one GPI row, never writing a line twice.
  With MGI filtering on, the row loop writes no GPI row. The GPI file was meant to come from the
  MGI marker report plus the proteins collected on the way. But `generateGPI_mgi` opens
  `LOCAL_MGI_REPORT_FILE` (goa_parser.py:669), and that name is defined nowhere; only
  `LOCAL_MRK_REPORT_FILE` is (goa_parser.py:49, config.py:84). Once the row loop finishes, the call
  raises `NameError`, and the GPI file holds no row. The model states exactly that. It also
  models the MGI pass as it would run if the name resolved to the marker report.
- GPAD + GPI to GAF. `generateGaf` indexes the GPI file by object and parent, then reads the GPAD
  file. For every parent of a row's object, it rebuilds a GAF row from the GPAD row, the GPI row and
  the ontology's aspect.

The model follows the two core files:

- `goa_specs.py` becomes the column schemas (`Schema`), the ECO code resolution (`Eco`) and the
  `gaf` class (`GafModel.Gaf`). The class is a Dafny class whose index attributes `_init` sets in
  place, and `setProtein` rewrites a row held in an array.
- `goa_parser.py` becomes:
  - the header readers (`Headers`);
  - the line writers with their dictionaries of displayed lines (`Output`);
  - the GAF→GPAD/GPI converter (`Forward`);
  - the MGI GPI writers and the marker-report pass (`Mgi`);
  - the GPAD/GPI→GAF converter (`Reverse`, with its properties in `ReverseProperties`).

Each loop of the source is a method with invariants, proved against a specification function: a
fold over the rows (`ForwardRun`, `GpadRun`, `MarkerRun`, `IndexGpi`), whose properties are lemmas.
Dictionaries whose iteration order Python leaves open are modelled as follows:

- A parent dictionary is visited in a ghost order that enumerates its keys.
- `protein_map` is visited by arbitrary choice.

The properties hold for every such order.

Python 2 behaviour is modelled as written:

- `strip()` removes ASCII white space and `lower()` is ASCII-only.
- A negative list index counts from the end.
- `"".join(...)` drops separators.
- A `KeyError` from `getECO_code` (no key for the evidence code and reference, and no `-Default`
  key) ends the whole run. The lines written before it stay written.
- A marker-report row of the wrong width raises `TypeError` in its own log message. A list plus a
  string raises in Python 2, so that row would end the MGI pass and the program if the pass were
  ever reached.
- An MGI-filtered run that did not stop on a `KeyError` ends in `NameError` when it reaches the MGI
  pass.

## Model

| member | source | states |
|---|---|---|
| Strings.Split | goa_parser.py:179 | `str.split` on one character: at least one part, and no part holds the separator |
| Strings.JoinSplit | goa_parser.py:179-184 | joining the parts of a split with the separator gives the string back |
| Strings.SplitJoin | goa_parser.py:344-345 | splitting a join of separator-free parts gives the parts back |
| Strings.SplitNoSeparator | goa_parser.py:328-333 | a string without the separator splits into itself alone |
| Strings.SplitCons | goa_specs.py:600-602 | a separator-free head and the separator split off as the first part |
| Strings.SplitAtFirst | goa_parser.py:179-185 | the first part ends at the first occurrence of the separator |
| Strings.SplitHasSeparator | goa_specs.py:600-602 | a string holding the separator splits into at least two parts |
| Strings.Remove | goa_parser.py:184 | the result holds exactly the characters of the input other than the removed one |
| Strings.RemoveLength | goa_parser.py:184 | removing never lengthens, and shortens exactly when the character occurs |
| Strings.ConcatSplit | goa_parser.py:184 | `"".join(s.split(c))` is `s` with every `c` removed |
| Strings.ContainsChar | goa_parser.py:614 | substring test on a one-character string is membership |
| Strings.ContainsAt | goa_specs.py:598-604 | `sub in s` holds exactly when `sub` occurs at some position of `s` |
| Strings.ContainsSuffix | goa_parser.py:356-357 | a string ends with, hence contains, what was appended to it |
| Strings.ContainsLength | goa_specs.py:598-604 | a contained string is no longer than its container |
| Strings.StripLeft | goa_specs.py:575 | the result does not start with white space |
| Strings.StripRight | goa_specs.py:575 | the result does not end with white space |
| Strings.StripRightPrefix | goa_specs.py:575 | right strip keeps a prefix and drops only white space |
| Strings.StripLeftSuffix | goa_specs.py:575 | left strip keeps a suffix and drops only white space |
| Strings.Strip | goa_parser.py:151 | `strip()` leaves no white space at either end |
| Strings.StripNoEdgeSpace | goa_specs.py:614 | a string without white space at its ends is its own strip |
| Strings.StripIdempotent | goa_specs.py:597 | stripping twice is stripping once |
| Strings.Lower | goa_specs.py:756 | `lower()` keeps the length and lowers each character |
| Strings.Replace | goa_parser.py:153 | `replace` changes nothing when the pattern does not occur |
| Strings.IndexOf | goa_specs.py:667-687 | `list.index` as a position in range or -1 for "absent" |
| Strings.IndexOfSpec | goa_specs.py:667-687 | -1 exactly for an absent element; otherwise its first occurrence |
| Strings.IndexFromFirst | goa_specs.py:667-687 | a scan from a start finds the first match after it, or reports none |
| Strings.IndexFromAt | goa_specs.py:667-687 | the scan stops at the first match |
| Strings.IndexOfCons | goa_specs.py:667-687 | skipping a non-matching head shifts the position by one |
| Strings.IndexOfDistinct | goa_specs.py:667-687 | in a list without repeats each element is found at its own position |
| Schema.LabelInjective | goa_specs.py:30-46 | distinct columns have distinct names |
| Schema.LabelRoundTrip | goa_specs.py:30-46 | every column name reads back as its column |
| Schema.GafPositions | goa_specs.py:30-46 | the positions of the 17 GAF 2.0 columns |
| Schema.Gaf1Positions | goa_specs.py:51-65 | the positions of the 15 GAF 1.0 columns |
| Schema.Gaf1Lacks | goa_specs.py:51-65 | GAF 1.0 has no annotation-extension and no form-id column |
| Schema.GpadPositions | goa_specs.py:342-350 | the `gpad_*_index` constants are the positions of their names |
| Schema.GpiPositions | goa_specs.py:352-359 | the `gpi_*_index` constants are the positions of their names |
| Schema.MrkPositions | goa_specs.py:361-365 | the `mrk_*_index` constants are the positions of their names |
| Schema.GafFieldsFor | goa_specs.py:656-664 | a version containing "1." gets the 15 GAF 1.0 columns, any other the 17 GAF 2.0 ones, sharing the first 15 |
| Schema.GafFieldsForShape | goa_specs.py:656-664 | either layout has no repeated column and holds every GAF 1.0 column |
| Schema.GafLacksTargetColumns | goa_parser.py:194-205 | annotation properties, parent id and cross-reference are never GAF columns, so `writeGP_row` fills them itself |
| Schema.MissingField | goa_specs.py:704-713 | 0 exactly when every required column is filled; otherwise the 1-based position of the first empty required column |
| Schema.FirstMissingRequired | goa_specs.py:704-713 | the scan returns the first missing required position |
| Schema.GpadCopiedPositions | goa_parser.py:380-385 | With, Date and Assigned_By sit at GPAD positions 6, 8 and 9 |
| Schema.NotGpadColumn | goa_parser.py:383-388 | symbol, name, synonym and type are not GPAD columns |
| Schema.GpadLacksGpiColumns | goa_parser.py:383-388 | the four GPI-only columns are absent from GPAD |
| Schema.GafColumnSources | goa_parser.py:380-388 | each GAF column the fill loop sets comes from GPAD when GPAD has it, else from GPI |
| Eco.EvidenceCode | goa_specs.py:574-579 | the mapped evidence code of the stripped ECO code, or "" when unmapped |
| Eco.EvidenceCodeIgnoresPadding | goa_specs.py:574-579 | padding around the ECO code does not change the answer |
| Eco.LastBefore | goa_specs.py:596-604 | the last token of a kind before a bound, and none of that kind after it |
| Eco.LastOfKind | goa_specs.py:596-604 | the last token of a kind in the reference list |
| Eco.ScanPrefixKeepsLast | goa_specs.py:596-604 | after scanning a prefix each slot holds the last token of its kind |
| Eco.ScanKeepsLast | goa_specs.py:596-604 | the token loop keeps the last GO_REF, MGI, PMID and J token it meets |
| Eco.EcoCode | goa_specs.py:586-622 | the map's value for `evidence-ref` when present; otherwise the one for `evidence-Default`; a failure naming `evidence-Default` exactly when neither key is present |
| Eco.GetEcoCode | goa_specs.py:586-622 | the imperative token loop computes `EcoCode` |
| Eco.GoRefWins | goa_specs.py:605 | a GO_REF token is the reference whenever there is one |
| Eco.MgiBeforePubmed | goa_specs.py:605-606 | without GO_REF, the MGI reference comes first |
| Eco.PubmedBeforeJ | goa_specs.py:605-607 | then the PubMed reference |
| Eco.JBeforeFirstToken | goa_specs.py:605-608 | then the J: reference |
| Eco.FirstTokenOtherwise | goa_specs.py:605-609 | with no marked token, the first unstripped token is the reference |
| Eco.ChooseRef | goa_specs.py:605-609 | defines the reference chosen after the scan: GO_REF, else MGI, PMID or J, else the first token unstripped |
| Eco.ResolveRef | goa_specs.py:590-614 | defines the looked-up reference: the chosen one, through the collection when listed there, then stripped |
| Eco.MgiThreePart | goa_specs.py:599-602 | an `MGI:x:y` token keeps only its middle part |
| Eco.EmptyGorefContainers | goa_parser.py:510-514 | 1 exactly when the ontology map or the reference collection is empty |
| Eco.EmptyEcoContainers | goa_parser.py:518-523 | 1 exactly when one of the three ECO maps is empty |
| GafModel.KeepPresent | goa_specs.py:756-759 | the qualifiers kept are exactly those present, in `qualifier_order`'s order |
| GafModel.RelationNames | goa_specs.py:251-267 | every aspect relation is one of the three names and holds no bar; the qualifier order has no repeats |
| GafModel.Gaf.constructor | goa_specs.py:627-654 | a new `gaf` has no columns and an empty index dictionary |
| GafModel.Gaf.Init | goa_specs.py:656-687 | `_init` appends the version's columns to `fields`, maps each to its position and sets every index attribute |
| GafModel.Gaf.SetIndexes | goa_specs.py:667-687 | each index attribute is `fields.index` of its column; the two GAF 2.0 ones stay -1 when absent |
| GafModel.Gaf.SetRecordIndexes | goa_specs.py:667-687 | DB, object, symbol, name, synonym and type indexes |
| GafModel.Gaf.SetAnnotationIndexes | goa_specs.py:667-687 | qualifier, GO id, reference, evidence, with and aspect indexes |
| GafModel.Gaf.SetProvenanceIndexes | goa_specs.py:667-687 | taxon, date, assigned-by, form-id and extension indexes |
| GafModel.InitialisedLayout | goa_specs.py:656-687 | after `_init` the object is consistent and its columns have no repeats |
| GafModel.AppendColumns | goa_specs.py:658-665 | the append loop adds the schema's columns and records each one's position |
| GafModel.ExtraColumnsKept | goa_specs.py:656-687 | a column in neither list is not found |
| GafModel.BaseColumnsFound | goa_specs.py:667-687 | appended GAF columns are all found |
| GafModel.BaseIndexes | goa_specs.py:667-687 | every `fields.index` call of `_init` succeeds |
| GafModel.Gaf.IsGeneVariant | goa_specs.py:692-697 | true exactly when the form-id column exists in the row and holds a colon |
| GafModel.Gaf1NeverVariant | goa_specs.py:692-697 | no GAF 1.0 row is a gene variant |
| GafModel.Gaf2VariantColumn | goa_specs.py:692-697 | a GAF 2.0 row is a variant exactly when column 17 holds a colon |
| GafModel.Gaf.HasMissingFields | goa_specs.py:704-713 | the first empty required GAF column (1-based), or 0 |
| GafModel.Gaf.GpiHasMissingFields | goa_specs.py:719-728 | the first empty required GPI column (1-based), or 0 |
| GafModel.Gaf.GpadHasMissingFields | goa_specs.py:734-743 | the first empty required GPAD column (1-based), or 0 |
| GafModel.Gaf.GetParentGpId | goa_specs.py:748-749 | the parent id is `DB:DB_Object_ID` of the row |
| GafModel.DbObjectDistinct | goa_specs.py:672-673 | DB and object columns are distinct positions in range |
| GafModel.ParentIdSplits | goa_specs.py:748-749 | a parent id splits back into its DB and its object id |
| GafModel.Gaf.GetGpadRelationship | goa_specs.py:755-768 | "" exactly for an unknown aspect; otherwise the present qualifiers in order, then the aspect's relation |
| GafModel.RelationshipColumns | goa_specs.py:755-768 | the relationship depends only on the qualifier and aspect columns |
| GafModel.RelationshipShape | goa_specs.py:755-768 | a relationship ends with an aspect relation, preceded only by known qualifiers |
| GafModel.Gaf.ProteinRewrite | goa_specs.py:776-793 | counts an empty form id and changes no column except DB and object id |
| GafModel.Gaf.SetProtein | goa_specs.py:776-793 | the in-place rewrite of the row array and of `protein_map` is `ProteinRewrite` |
| GafModel.ProteinRewriteRestores | goa_specs.py:776-793 | for a form id with a colon, new DB `:` new object id gives the form id back; the map records the old object id |
| GafModel.ProteinRewriteKeeps | goa_specs.py:776-793 | a row without a form id is left as it is |
| GafModel.Gaf.Gaf2GpadGpi | goa_specs.py:799-821 | each GAF column maps to its GPAD and GPI position of the same name; form id maps to the GPI parent; DB and object carry the `/parent` note |
| GafModel.Gaf.Gpi2Gaf | goa_specs.py:826-841 | each GPI column maps back to its GAF column; the parent maps to DB+object |
| GafModel.Gaf.Gpad2Gaf | goa_specs.py:846-865 | each GPAD column maps back to its GAF column. Evidence is `n + n-1`, DB and object are `n/width`, and relationship is `qualifier|aspect`. Every other shared column is a plain `n`. A missing extension points at the evidence column |
| GafModel.GpadTablesAgree | goa_specs.py:799-865 | GAF→GPAD then GPAD→GAF returns to the same GAF column, as a plain `n` for every column without a special case |
| GafModel.GpiTablesAgree | goa_specs.py:799-865 | GAF→GPI then GPI→GAF returns to the same GAF column |
| GafModel.ParentColumnTables | goa_specs.py:799-865 | the form id maps to the GPI parent, which maps back to DB+object |
| Output.Emit | goa_parser.py:207-210 | the line joins the dictionary, and reaches the file exactly when it was not displayed before |
| Output.EmitIdempotent | goa_parser.py:207-210 | writing the same line twice is writing it once |
| Output.EmitAllWritesEachOnce | goa_parser.py:207-210 | a deduplicated file stays deduplicated and holds exactly the old lines and the new ones |
| Output.EmitAllGrows | goa_parser.py:207-210 | the file only grows, and the dictionary with it |
| Output.RowWriter.constructor | goa_parser.py:540-541 | a new dictionary of displayed lines and an empty file |
| Output.RowWriter.Write | goa_parser.py:207-210 | the writer's new state is `Emit` of its old state |
| Output.LineWriter.constructor | goa_parser.py:260 | an empty GAF output file |
| Output.LineWriter.Write | goa_parser.py:391 | the line is appended to the file |
| Headers.VersionAfter | goa_parser.py:150-153 | defines the version after some header lines: the last stripped line with the tag, minus the tag, or "" |
| Headers.GafVersion | goa_parser.py:147-157 | defines what `getGaf_version` returns: `VersionAfter` over the file's header |
| Headers.HeaderLength | goa_parser.py:163-172 | the header is the longest prefix of lines starting with "!" after stripping |
| Headers.GetGafVersion | goa_parser.py:147-157 | the header loop computes `GafVersion` |
| Headers.GFileHeader | goa_parser.py:163-172 | the header lines, stripped, up to the first non-header line |
| Headers.GetGFileHeader | goa_parser.py:163-172 | the header lines are appended to the list passed in |
| Headers.HeaderLinesMarked | goa_parser.py:166-169 | every collected header line starts with "!" and is stripped |
| Headers.VersionFromCollectedHeader | goa_parser.py:147-172 | the version read from the file is the one read from its collected header |
| Headers.LastVersionLineWins | goa_parser.py:150-153 | the last header line naming `gaf-version:` gives the version, with the tag removed |
| Headers.NoVersionLine | goa_parser.py:147-157 | no version line gives "" |
| Headers.ReplaceKeepsBang | goa_parser.py:153 | removing the tag keeps the leading "!" |
| Headers.VersionKeepsBang | goa_parser.py:147-157 | a found version keeps the header's "!" (the tag is removed, not the marker) |
| Forward.ProjectedTaxon | goa_parser.py:179-185 | GPI keeps the first `\|` component; GPAD gets the later components run together, "" when there is only one |
| Forward.SplitTaxon | goa_parser.py:179-185 | the imperative taxon split computes `ProjectedTaxon` |
| Forward.Projection | goa_parser.py:186-205 | one cell per target column, each the cell `writeGP_row` builds |
| Forward.ProjectionByName | goa_parser.py:186-205 | a shared column copies the GAF cell (taxon projected); annotation properties get the evidence code, the parent the parent id for variants, anything else " " |
| Forward.ColumnCell | goa_parser.py:187-205 | the loop body builds that cell |
| Forward.WriteGpRow | goa_parser.py:177-210 | `writeGP_row` emits the tab join of the projected row |
| Forward.ProjectRow | goa_parser.py:179-205 | the taxon split and the column loop build exactly `Projection`, one cell per destination column |
| Forward.GpiProjection | goa_parser.py:186-205 | the GPI row of a GAF row, column by column |
| Forward.GpiColumn | goa_parser.py:186-193 | a GPI column named like a GAF column copies it, with the taxon projected |
| Forward.GpiBlankColumn | goa_parser.py:194-205 | a GPI column GAF lacks holds the parent id for a variant's parent column, else a space |
| Forward.GpadProjection | goa_parser.py:186-205 | the GPAD row of a GAF row, column by column |
| Forward.GpadProjectionFront | goa_parser.py:186-205 | GPAD columns 0-6 copy their GAF columns |
| Forward.GpadProjectionBack | goa_parser.py:186-205 | GPAD taxon, date, assigned-by, extension and properties |
| Forward.CheckRow | goa_parser.py:568-616 | a row is accepted only when it is as wide as `gaf.fields`; a rejected row never converts |
| Forward.CheckGafRow | goa_parser.py:568-616 | the validation chain computes `CheckRow` |
| Forward.ConvertChecked | goa_parser.py:608-634 | a converted row keeps its width and yields a full GPAD and GPI row |
| Forward.Annotated | goa_parser.py:618-634 | ECO code, extension and relationship set on the row keep its width |
| Forward.Annotate | goa_parser.py:618-634 | the in-place updates of the row array give `Annotated` |
| Forward.RewriteRow | goa_parser.py:608-634 | the method computes `ConvertChecked` |
| Forward.RewriteCells | goa_parser.py:608-625 | protein rewrite for variants, then annotation |
| Forward.ConvertCheckedRow | goa_parser.py:608-642 | a converted row's GPAD line is emitted; its GPI line is emitted unless MGI filtering is on |
| Forward.ForwardRow | goa_parser.py:565-642 | the outcome of one GAF row: skipped, aborted or converted with full rows |
| Forward.ConvertGafRow | goa_parser.py:565-642 | the loop body computes `ForwardRow` and writes as above |
| Forward.WithEco | goa_parser.py:620-624 | the ECO code appended after a bar, or alone when the extension is empty |
| Forward.AnnotatedColumns | goa_parser.py:618-634 | only evidence, relationship and extension change, to the ECO code, the relationship and `WithEco` |
| Forward.RewrittenIds | goa_parser.py:604-617 | a variant's DB and object id rejoin into its form id and the map records it; others unchanged |
| Forward.ForwardGafRow | goa_parser.py:604-634 | the converted GAF row, cell by cell, and both projections of it |
| Forward.ForwardGpadRow | goa_parser.py:604-638 | each GPAD cell in terms of the input row |
| Forward.GpadTrace | goa_parser.py:186-205 | GPAD cells of an annotated row in terms of the original |
| Forward.ForwardGpiRow | goa_parser.py:604-642 | each GPI cell in terms of the input row; DB and object agree with the GPAD row |
| Forward.GpiTrace | goa_parser.py:186-205 | GPI cells of an annotated row in terms of the original |
| Forward.ForwardProteins | goa_parser.py:610-617 | a variant adds form id → object id to `protein_map`; the form id holds a colon and no bar |
| Forward.ForwardRowKeys | goa_parser.py:610-617 | a row's outcome keeps every protein-map key a form id with a colon and no bar |
| Forward.ConvertedProteinKeys | goa_parser.py:610-617 | every key of `protein_map` is a form id with a colon and no bar |
| Forward.ConvertedExactly | goa_parser.py:568-616 | a row converts exactly when it passes every check; it aborts exactly when only the ECO lookup fails |
| Forward.SkippedRowsWriteNothing | goa_parser.py:565-616 | a line changes a file only if the run goes on, it is not a comment and it passes every check |
| Forward.StartRun | goa_parser.py:540-544 | the loop starts running, with an empty protein map and a zero count |
| Forward.ApplyOutcome | goa_parser.py:636-642 | a row that does not convert leaves the files and the map alone; an abort halts the run |
| Forward.ForwardStep | goa_parser.py:562-642 | once halted, a step changes nothing |
| Forward.ForwardLine | goa_parser.py:562-642 | the loop body computes `ForwardStep` on the writers' states |
| Forward.ConvertGafRows | goa_parser.py:562-642 | the row loop computes `ForwardRun` from the writers' states |
| Forward.ForwardRunFrom | goa_parser.py:562-642 | the run over the rest is one step, then the run after it |
| Forward.HaltedRunStays | goa_parser.py:593 | after the `KeyError` the remaining rows change nothing |
| Forward.RunInvariants | goa_parser.py:562-642 | both files stay free of repeated lines, match their dictionaries and only grow; protein keys stay form ids |
| Forward.StepInvariants | goa_parser.py:562-642 | one step keeps those invariants |
| Forward.ApplyInvariants | goa_parser.py:636-642 | applying an outcome keeps them |
| Forward.PrepareGpiGpad | goa_parser.py:535-539 | the version and header of the GAF file, and a fresh, consistent `gaf` holding that version's columns (its index positions then follow from `GafModel.InitialisedLayout`) |
| Forward.ConvertGafFile | goa_parser.py:535-642 | the set-up, two new files and the row loop: the files, the protein map, the count and the halt are those of `ForwardRun` from empty files |
| Forward.GenerateGpiGpad | goa_parser.py:530-669 | two new files filled by the row loop. When filtering is on and the loop did not abort, the run ends in `NameError` at the MGI call, and the GPI file holds no row |
| Forward.FilteredRunLeavesGpi | goa_parser.py:640-641 | with MGI filtering on, the row loop never writes to the GPI file |
| Forward.ForwardRun | goa_parser.py:562-642 | defines the row loop over the GAF lines, one `ForwardStep` per line in file order |
| Mgi.MarkerRow | goa_parser.py:701-712 | one cell per GPI column: the marker column of the same name, the taxon, the DB, or "" |
| Mgi.MarkerGpiRow | goa_parser.py:701-712 | a marker's GPI row, column by column |
| Mgi.WriteGpiMgiRow | goa_parser.py:701-716 | the marker's row is emitted through the dictionary |
| Mgi.ProteinRow | goa_parser.py:720-748 | a protein's GPI row: protein DB and id from the form id, marker data, "protein", taxon, gene as parent |
| Mgi.ProteinRowNamesForm | goa_parser.py:723-725 | a one-colon form id gives back its DB and protein id |
| Mgi.ProteinRowDropsTail | goa_parser.py:723-725 | a form id with two colons loses what follows the second |
| Mgi.BuildProteinRow | goa_parser.py:730-748 | the column loop builds the protein row |
| Mgi.WriteProteinRow | goa_parser.py:721-752 | a protein whose gene has a marker gets its row emitted; otherwise nothing is written |
| Mgi.WriteGpiProtRows | goa_parser.py:720-752 | in any order, exactly the protein lines not displayed before are added; the file only grows and stays deduplicated |
| Mgi.MarkerStep | goa_parser.py:678-694 | a raising line stops the pass; a stopped pass stays stopped |
| Mgi.MarkerRunRaises | goa_parser.py:678-686 | the pass raises exactly when one of its lines raises |
| Mgi.MarkerRunMarkers | goa_parser.py:687-690 | a pass that completes holds a marker exactly for the ids of its accepted rows |
| Mgi.MarkerRunWrites | goa_parser.py:691-694 | a completed pass displays exactly the lines of typed rows, and the file only grows |
| Mgi.LastMarkerWins | goa_parser.py:687-690 | the marker recorded for an id is that of its last accepted row |
| Mgi.StoppedScanStays | goa_parser.py:683-686 | after a raising line nothing more is read |
| Mgi.ReadMarkerLine | goa_parser.py:678-694 | the loop body computes `MarkerStep` |
| Mgi.GenerateGpiMgi | goa_parser.py:668-697 | the pass as it would run if its report name resolved: a new dictionary, the report read up to its end or first raising line, then the protein rows |
| Mgi.MarkerRun | goa_parser.py:678-694 | defines the reading of the marker report, one `MarkerStep` per line in file order |
| Mgi.MgiPassLines | goa_parser.py:668-697 | a completed pass displays exactly the typed marker lines and the protein lines of genes with markers, after what the file held |
| Reverse.IndexLine | goa_parser.py:221-249 | defines one pass of the `loadGpi` loop: a kept line is stored under its key and counted under its object and parent |
| Reverse.IndexGpi | goa_parser.py:220-249 | defines the two dictionaries after reading the lines, one `IndexLine` each in file order |
| Reverse.LoadGpi | goa_parser.py:214-252 | the loading loop computes `IndexGpi` |
| Reverse.LoadedIndexWellFormed | goa_parser.py:214-252 | every recorded parent has a row and a positive count; every row is a full GPI row |
| Reverse.IndexLineWellFormed | goa_parser.py:241-249 | one line keeps that shape |
| Reverse.RowsAreIndexedLines | goa_parser.py:220-244 | every stored row is a kept GPI line stored under its own key |
| Reverse.LastLineWins | goa_parser.py:241-244 | for a repeated key the last kept line is stored |
| Reverse.IndexCounts | goa_parser.py:245-249 | each count is the number of kept lines for that object and parent; a parent is recorded exactly when it has one |
| Reverse.ValidLayout | goa_specs.py:667-687 | an initialised `gaf` gives index attributes in range |
| Reverse.InitialisedJoinLayout | goa_specs.py:656-687 | after `_init` the attributes are the fixed layout of the version |
| Reverse.GafLayout | goa_specs.py:656-687 | the layout of a version is well formed |
| Reverse.LayoutForUnique | goa_specs.py:656-687 | a version has one layout |
| Reverse.IdentityRow | goa_parser.py:326-342 | the identity columns keep the GAF width |
| Reverse.AnnotatedRow | goa_parser.py:343-357 | the annotation columns keep the GAF width |
| Reverse.AssignedRow | goa_parser.py:326-371 | the row before the fill loop keeps the GAF width |
| Reverse.FillEmpty | goa_parser.py:373-388 | each cell is what the fill loop leaves there |
| Reverse.FillEmptyColumns | goa_parser.py:373-388 | the fill loop computes `FillEmpty` |
| Reverse.JoinRow | goa_parser.py:326-391 | the ECO lookup fails exactly on `KeyError`; a row is written exactly when the lookup succeeds and the GO id has an aspect |
| Reverse.ParentIds | goa_parser.py:328-333 | defines the carried ids after a parent: a non-empty parent id saves `db:object_id` as form id, and with a colon gives its first part as DB and the rest run together as object id |
| Reverse.CarryParent | goa_parser.py:328-342 | defines the carried ids after the GAF 2.0 test that clears a form id equal to the object id |
| Reverse.JoinedTaxon | goa_parser.py:334-338 | defines the GAF taxon: the GPI taxon, with `|` and the GPAD interacting taxon when there is one |
| Reverse.QualifierOf | goa_parser.py:343-345 | defines the qualifier: the relationship's bar-separated parts before the last, joined by bars |
| Reverse.ExtensionWithEco | goa_parser.py:350-357 | defines the extension: the GPAD extension with `|` and the ECO code appended unless the code already occurs in it |
| Reverse.ParentStep | goa_parser.py:324-391 | defines one pass of the parent loop: the carried ids, then a written row, a skipped one or a `KeyError` |
| Reverse.ParentsRun | goa_parser.py:324-391 | defines the parent loop over a given order, stopping at the first `KeyError` |
| Reverse.GpadLine | goa_parser.py:292-391 | defines one GPAD line's output: nothing for a line that is not joinable, else the parent loop from the line's own DB and object id |
| Reverse.GpadRun | goa_parser.py:289-391 | defines the rows written for all GPAD lines and whether a `KeyError` stopped the run |
| Reverse.StartRow | goa_parser.py:326-342 | the carried ids and the identity row for a parent |
| Reverse.JoinParent | goa_parser.py:326-388 | one parent's outcome is `JoinRow` with the carried ids |
| Reverse.ParentsRunAppend | goa_parser.py:324-391 | one more parent is one more step of the run |
| Reverse.TabLines | goa_parser.py:391 | one tab-joined line per row |
| Reverse.TabLinesAppend | goa_parser.py:391 | lines of concatenated rows concatenate |
| Reverse.VisitParent | goa_parser.py:326-391 | the body for one parent writes that step's rows |
| Reverse.WalkParents | goa_parser.py:324-391 | the parents are visited in an order enumerating the dictionary's keys; the file gets that run's rows |
| Reverse.JoinGpadLine | goa_parser.py:292-391 | one GPAD line writes the rows of `GpadLine` for some parent order |
| Reverse.EmitGpadLine | goa_parser.py:289-391 | that line's output, as an element of the run |
| Reverse.LineOutputs | goa_parser.py:289-391 | the outputs of the lines, one per line |
| Reverse.YieldsAppend | goa_parser.py:289-391 | outputs extend line by line |
| Reverse.GpadRunCollects | goa_parser.py:289-391 | collecting the per-line outputs gives `GpadRun` |
| Reverse.CollectAppend | goa_parser.py:289-391 | a running collection extends by the next output |
| Reverse.RunStep | goa_parser.py:289-391 | one more GPAD line extends the written lines by its own |
| Reverse.GenerateGafRows | goa_parser.py:289-391 | the GPAD loop writes the rows of `GpadRun` over the lines read; it stops early only on a `KeyError` |
| Reverse.PrepareGaf | goa_parser.py:260-276 | a fresh `gaf` for the version and the index of the GPI file |
| Reverse.GenerateGaf | goa_parser.py:259-392 | the whole GAF output in terms of `GpadRun` on the GPI index |
| Reverse.Enumeration | goa_parser.py:324 | every key set has an enumeration without repeats |
| Reverse.HaltedParentsStay | goa_parser.py:353 | after the `KeyError` the remaining parents change nothing |
| ReverseProperties.ExtensionWithEcoNonEmpty | goa_parser.py:356-357 | with an ECO code the extension is never empty |
| ReverseProperties.AssignedCells | goa_parser.py:326-371 | every cell of the row before the fill loop |
| ReverseProperties.FillCell | goa_parser.py:373-388 | an empty unreserved cell takes the GPAD column of its name, else the GPI one |
| ReverseProperties.FilledCells | goa_parser.py:373-388 | the fill loop's result, cell by cell, with the reserved cells kept |
| ReverseProperties.JoinedColumns | goa_parser.py:326-391 | the written GAF row cell by cell, in terms of the GPAD row, the GPI row and the carried ids |
| ReverseProperties.QualifierRoundTrip | goa_parser.py:343-345 | the GAF qualifier recovered from a GPAD relationship is the kept qualifiers joined by bars |
| ReverseProperties.QualifierOfParts | goa_parser.py:343-345 | a relationship that splits into qualifiers and a relation gives those qualifiers back, joined by bars |
| ReverseProperties.TaxonWithBar | goa_parser.py:334-338 | a barred taxon comes back as its first part and its later parts run together |
| ReverseProperties.TaxonRoundTripExact | goa_parser.py:334-338 | the taxon round trip returns the original exactly when it has at most one bar and a non-empty second part |
| ReverseProperties.TaxonPairRoundTrip | goa_parser.py:334-338 | a taxon pair survives the round trip |
| ReverseProperties.ExtensionKeepsEco | goa_parser.py:356-357 | an extension that already carries the ECO code is not extended again |
| ReverseProperties.ParentIdSplit | goa_parser.py:328-333 | a parent id sets DB to its first part and object id to the rest without colons |
| ReverseProperties.ParentIdRoundTrip | goa_parser.py:328-333 | a `db:id` parent id gives back its DB and id |
| ReverseProperties.ThreePartParentId | goa_parser.py:328-333 | a three-part parent id runs its last two parts together |
| ReverseProperties.CarriedFormIds | goa_parser.py:326-342 | the second parent's form id is the first parent's rewritten ids, not the GPAD object |
| ReverseProperties.ParentsRunShape | goa_parser.py:324-391 | full-width rows; a failed lookup writes nothing and halts unless there are no parents; otherwise one row per parent when the GO id has an aspect |
| ReverseProperties.DistinctSize | goa_parser.py:324 | an enumeration has as many elements as the key set |
| ReverseProperties.GpadLineOutcome | goa_parser.py:289-391 | an unjoinable line writes nothing; a joinable one halts on a failed lookup, else writes one row per parent when the GO id has an aspect |

## Left out

- Reading files and the csv dialect. Files are given as sequences of lines (headers) or of rows
  already split into cells. The writers keep the lines written, without the trailing newline.
- The log, the progress prints and the tally counters, including the feature-type tally and the
  multiple-parents report of `generateGaf`. The count of mismatched marker rows is also left out:
  the row raises before it is counted.
- `displayGFile_header` and the header blocks it writes: the files hold only the rows.
- The text rendering of `getgaf2gpadgpi`, `getgpi2gaf` and `getgpad2gaf`: their column tables are
  modelled, their printed lines are not.
- `setup_depends`, `converter_init`, `Goref._init` and `Eco._init`. These parse the reference files
  into the maps that `References` carries as parameters.
- The check against `GAF_EVIDENCE_CODES` in `generateGaf`. It only logs, so it has no effect on the
  output.
- A blank row raises `IndexError` at `line[0]`. The converters require every row to have a first
  cell (`NonEmptyLines`) instead of modelling that error.
- Headers.GetGFileHeader: returns the extended list instead of appending to the caller's list.
- Reverse.GenerateGaf: takes the version as a parameter, as the source does, and writes the rows
  without a dictionary of displayed lines, also as the source does.
- Forward.GenerateGpiGpad: is given the GAF file twice, as its text lines for the header readers and
  as its rows for the row loop. The model does not tie the two views together.
- Mgi.GenerateGpiMgi: modelled as the pass would run if `LOCAL_MGI_REPORT_FILE` named the marker
  report (`LOCAL_MRK_REPORT_FILE`). As written, `generateGPI_mgi` raises `NameError` on its first line
  (goa_parser.py:669), so `Forward.GenerateGpiGpad` never calls it and its rows are never written.
- After that `NameError`, the final log lines and the closing of the GPAD and GPI files
  (goa_parser.py:646-661) are not reached. The model has no log and no closing, so it does not show
  this.
- Dictionary iteration order. The parents of an object and the proteins of `protein_map` are visited
  in an order the model leaves open. The output is stated for the order taken (a ghost sequence),
  not for CPython's hash order.
