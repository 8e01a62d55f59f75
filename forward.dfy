/**
 * The GAF to GPAD + GPI converter of goa_parser.py (`generateGpiGpad` and the
 * row writers it calls). Each GAF row is validated, resolved (ECO code,
 * relationship, protein rewrite) and projected onto the GPAD and the GPI
 * schema, and each projected line is written once.
 */
module Forward {
  import opened Strings
  import opened Schema
  import opened Eco
  import opened GafModel
  import opened Output
  import opened Headers

  /**
   * `writeGP_row`'s taxon: GPI keeps the first `|` component of the GAF
   * taxon; GPAD gets the components after it run together, with the
   * separators dropped ("" when there is only one component).
   */
  function ProjectedTaxon(taxon: string, isGpad: bool): (t: string)
    ensures '|' !in taxon ==> t == if isGpad then "" else taxon
    ensures '|' in taxon ==>
      var k := IndexOf(taxon, '|');
      0 <= k < |taxon| && '|' !in taxon[..k] &&
      t == if isGpad then Remove(taxon[k + 1..], '|') else taxon[..k]
  {
    var taxa := Split(taxon, '|');
    var interTaxon := if |taxa| > 1 then Concat(taxa[1..]) else "";
    var t := if isGpad then interTaxon else taxa[0];
    if '|' in taxon then
      SplitAtFirst(taxon, '|');
      var k := IndexOf(taxon, '|');
      assert taxa[1..] == Split(taxon[k + 1..], '|');
      ConcatSplit(taxon[k + 1..], '|');
      t
    else
      SplitNoSeparator(taxon, '|');
      t
  }

  /**
   * One column of `writeGP_row`'s row: the GAF column of the same name (the
   * taxon as `ProjectedTaxon` gives it); for a name GAF lacks, the evidence
   * code at GPAD's Annotation_Properties, the parent id at GPI's
   * Parent_Object_ID for a variant, and a single space otherwise.
   */
  function ProjectedColumn(fields: seq<Column>, taxonIndex: int, gafRow: seq<string>, name: Column, i: int,
                           isGpad: bool, isVariant: bool, parentId: string, evidence: string): string
    requires |gafRow| == |fields|
  {
    var j := IndexOf(fields, name);
    if j >= 0 then
      if j == taxonIndex then ProjectedTaxon(gafRow[j], isGpad) else gafRow[j]
    else if isGpad then
      if i == GpadAnnotPropertiesIndex then evidence else " "
    else if i == GpiParentIndex && isVariant then parentId
    else " "
  }

  /**
   * The row `writeGP_row` builds for the destination columns `target`, from
   * a GAF row laid out as `fields` (`gaf.fields`, with `gaf.taxon_index`).
   */
  function Projection(fields: seq<Column>, taxonIndex: int, gafRow: seq<string>, target: seq<Column>,
                      isGpad: bool, isVariant: bool, parentId: string, evidence: string): (out: seq<string>)
    requires |gafRow| == |fields|
    ensures |out| == |target|
    ensures forall i :: 0 <= i < |target| ==>
      out[i] == ProjectedColumn(fields, taxonIndex, gafRow, target[i], i, isGpad, isVariant, parentId, evidence)
    decreases |target|
  {
    if |target| == 0 then []
    else
      var n := |target| - 1;
      var front := Projection(fields, taxonIndex, gafRow, target[..n], isGpad, isVariant, parentId, evidence);
      front + [ProjectedColumn(fields, taxonIndex, gafRow, target[n], n, isGpad, isVariant, parentId, evidence)]
  }

  /**
   * The projection copies by column name: a destination column named like a
   * GAF column takes that column's value (the taxon split as
   * `ProjectedTaxon` says); a destination column GAF lacks is the evidence
   * code at GPAD's Annotation_Properties, the parent id at a variant's GPI
   * Parent_Object_ID, and a single space everywhere else.
   */
  lemma ProjectionByName(fields: seq<Column>, taxonIndex: int, gafRow: seq<string>, target: seq<Column>,
                         isGpad: bool, isVariant: bool, parentId: string, evidence: string)
    requires |gafRow| == |fields| && Distinct(fields) && taxonIndex == IndexOf(fields, Taxon)
    ensures var out := Projection(fields, taxonIndex, gafRow, target, isGpad, isVariant, parentId, evidence);
      (forall i, j :: 0 <= i < |target| && 0 <= j < |fields| && fields[j] == target[i] ==>
        out[i] == if target[i] == Taxon then ProjectedTaxon(gafRow[j], isGpad) else gafRow[j]) &&
      (forall i :: 0 <= i < |target| && target[i] !in fields ==>
        out[i] == if isGpad && i == GpadAnnotPropertiesIndex then evidence
                  else if !isGpad && i == GpiParentIndex && isVariant then parentId
                  else " ")
  {
    IndexOfSpec(fields, Taxon);
    forall i, j | 0 <= i < |target| && 0 <= j < |fields| && fields[j] == target[i]
      ensures IndexOf(fields, target[i]) == j
    {
      IndexOfDistinct(fields, j);
    }
    forall i | 0 <= i < |target| && target[i] !in fields
      ensures IndexOf(fields, target[i]) == -1
    {
      IndexOfSpec(fields, target[i]);
    }
  }

  /** The taxon lines of `writeGP_row`: split on `|`, keep the first part or run the others together. */
  method SplitTaxon(taxonField: string, isGpad: bool) returns (taxon: string)
    ensures taxon == ProjectedTaxon(taxonField, isGpad)
  {
    var taxa := Split(taxonField, '|');
    var interTaxon := "";
    taxon := taxa[0];
    if |taxa| > 1 {
      var end := |taxa|;
      assert taxa[1..end] == taxa[1..];
      interTaxon := Concat(taxa[1..end]);
    }
    if isGpad {
      taxon := interTaxon;
    }
  }

  /** One pass of `writeGP_row`'s column loop, given the taxon computed before it. */
  method ColumnCell(fields: seq<Column>, taxonIndex: int, gafRow: seq<string>, taxon: string, name: Column,
                    i: int, isGpad: bool, isVariant: bool, parentId: string, evidence: string)
    returns (cell: string)
    requires |gafRow| == |fields| && 0 <= taxonIndex < |fields|
    requires taxon == ProjectedTaxon(gafRow[taxonIndex], isGpad)
    ensures cell == ProjectedColumn(fields, taxonIndex, gafRow, name, i, isGpad, isVariant, parentId, evidence)
  {
    IndexOfSpec(fields, name);
    if name in fields {
      var gafIndex := IndexOf(fields, name);
      if gafIndex == taxonIndex {
        cell := taxon;
      } else {
        cell := gafRow[gafIndex];
      }
    } else if isGpad {
      if i == GpadAnnotPropertiesIndex {
        cell := evidence;
      } else {
        cell := " ";
      }
    } else if i == GpiParentIndex {
      if isVariant {
        cell := parentId;
      } else {
        cell := " ";
      }
    } else {
      cell := " ";
    }
  }

  /**
   * `writeGP_row`: split the taxon, build the destination row column by
   * column, join it with tabs and write it unless it was written before.
   */
  method WriteGpRow(fields: seq<Column>, taxonIndex: int, gafRow: seq<string>, sink: RowWriter,
                    target: seq<Column>, isGpad: bool, isVariant: bool, parentId: string, evidence: string)
    requires |gafRow| == |fields| && 0 <= taxonIndex < |fields|
    modifies sink
    ensures sink.State() ==
      Emit(old(sink.State()), Join(Projection(fields, taxonIndex, gafRow, target, isGpad, isVariant, parentId, evidence), "\t"))
  {
    var gfRow := ProjectRow(fields, taxonIndex, gafRow, target, isGpad, isVariant, parentId, evidence);
    sink.Write(Join(gfRow, "\t"));
  }

  /** The column loop of `writeGP_row`, after the taxon split: one cell per destination column. */
  method ProjectRow(fields: seq<Column>, taxonIndex: int, gafRow: seq<string>, target: seq<Column>,
                    isGpad: bool, isVariant: bool, parentId: string, evidence: string)
    returns (gfRow: seq<string>)
    requires |gafRow| == |fields| && 0 <= taxonIndex < |fields|
    ensures gfRow == Projection(fields, taxonIndex, gafRow, target, isGpad, isVariant, parentId, evidence)
  {
    var taxon := SplitTaxon(gafRow[taxonIndex], isGpad);
    gfRow := [];
    var i := 0;
    while i < |target|
      invariant 0 <= i <= |target|
      invariant gfRow == Projection(fields, taxonIndex, gafRow, target[..i], isGpad, isVariant, parentId, evidence)
    {
      var cell := ColumnCell(fields, taxonIndex, gafRow, taxon, target[i], i, isGpad, isVariant, parentId, evidence);
      assert target[..i + 1][..i] == target[..i];
      gfRow := gfRow + [cell];
      i := i + 1;
    }
    assert target[..i] == target;
  }

  /** Why `generateGpiGpad` skips a GAF row. */
  datatype Skip =
    | FieldCountMismatch
    | MissingRequired(position: nat)
    | InvalidDb
    | InvalidEvidence
    | InvalidAspect
    | InvalidFormId

  /**
   * What one GAF row comes to: skipped; the conversion stopped by the
   * `KeyError` of `getECO_code`; or converted, with the rewritten GAF row,
   * the GPAD and GPI rows projected from it, the protein map and the
   * empty-protein count `setProtein` returned.
   */
  datatype RowOutcome =
    | Skipped(reason: Skip)
    | Aborted(missingKey: string)
    | Converted(gafRow: seq<string>, gpadRow: seq<string>, gpiRow: seq<string>,
                proteins: map<string, string>, emptyProteins: int)

  /** The outcome of the checks that come before the rewrite: a verdict, or the ECO code to go on with. */
  datatype Check = Rejected(outcome: RowOutcome) | Accepted(eco: string)

  /**
   * The checks of `generateGpiGpad`'s row loop, in order: the field count,
   * the required fields, the DB, the ECO code (a missing default key stops
   * the conversion, an empty code skips the row) and the aspect.
   */
  function CheckRow(g: Gaf, row: seq<string>, refs: References): (c: Check)
    reads g
    requires g.Valid()
    ensures c.Accepted? ==> |row| == |g.fields|
    ensures c.Rejected? ==> !c.outcome.Converted?
  {
    if |row| != |g.fields| then Rejected(Skipped(FieldCountMismatch))
    else
      var missing := MissingField(g.fields, RequiredGafFields, row);
      if missing != 0 then Rejected(Skipped(MissingRequired(missing)))
      else if row[0] !in refs.goDatabases then Rejected(Skipped(InvalidDb))
      else
        match EcoCode(row[g.gorefIndex], row[g.evidenceIndex], refs.collection, refs.gafEcoMap)
        case Failure(key) => Rejected(Aborted(key))
        case Success(eco) =>
          if eco == "" then Rejected(Skipped(InvalidEvidence))
          else if g.GetGpadRelationship(row) == "" then Rejected(Skipped(InvalidAspect))
          else Accepted(eco)
  }

  /**
   * The rest of the row loop for a row that passed the checks: a variant with
   * `|` in its form id is skipped; otherwise the parent id is taken from the
   * original row, the protein rewrite applied to a variant, the row annotated,
   * and both destination rows projected.
   */
  function ConvertChecked(g: Gaf, row: seq<string>, eco: string, proteins: map<string, string>): (o: RowOutcome)
    reads g
    requires g.Valid() && |row| == |g.fields|
    ensures o.Converted? ==>
      |o.gafRow| == |row| && |o.gpadRow| == |GpadFields| && |o.gpiRow| == |GpiFields|
  {
    var evidence := row[g.evidenceIndex];
    var parentId := g.GetParentGpId(row);
    var variant := g.IsGeneVariant(row);
    if variant && '|' in row[g.productFormIdIndex] then Skipped(InvalidFormId)
    else
      var u := if variant then g.ProteinRewrite(row, proteins) else ProteinUpdate(0, row, proteins);
      var gafRow := Annotated(g, u.row, eco);
      Converted(gafRow,
                Projection(g.fields, g.taxonIndex, gafRow, GpadFields, true, variant, parentId, evidence),
                Projection(g.fields, g.taxonIndex, gafRow, GpiFields, false, variant, parentId, evidence),
                u.proteins, u.total)
  }

  /** The body of `generateGpiGpad`'s row loop, for a row that is not a header line. */
  function ForwardRow(g: Gaf, row: seq<string>, refs: References, proteins: map<string, string>): (o: RowOutcome)
    reads g
    requires g.Valid()
    ensures o.Converted? ==>
      |o.gafRow| == |row| == |g.fields| && |o.gpadRow| == |GpadFields| && |o.gpiRow| == |GpiFields|
  {
    match CheckRow(g, row, refs)
    case Rejected(outcome) => outcome
    case Accepted(eco) => ConvertChecked(g, row, eco, proteins)
  }

  /**
   * The in-place edits after the protein rewrite: the evidence column takes
   * the ECO code, the annotation extension gets `|eco` appended (or becomes
   * `eco` when empty), and the qualifier column takes the relationship. The
   * annotation extension is written through Python's `row[index]`, so with
   * the index -1 of GAF 1.0 the last column is written instead.
   */
  function Annotated(g: Gaf, row: seq<string>, eco: string): (r: seq<string>)
    reads g
    requires g.Valid() && |row| == |g.fields|
    ensures |r| == |row|
  {
    var r1 := row[g.evidenceIndex := eco];
    var ae := PyIndex(g.annotationExtensionIndex, |r1|);
    var r2 := r1[ae := if r1[ae] != "" then r1[ae] + "|" + eco else eco];
    r2[g.qualIndex := g.GetGpadRelationship(r2)]
  }

  /** The checks of the row loop, as the source runs them. */
  method CheckGafRow(g: Gaf, row: seq<string>, refs: References) returns (c: Check)
    requires g.Valid()
    ensures c == CheckRow(g, row, refs)
  {
    if |row| != |g.fields| {
      return Rejected(Skipped(FieldCountMismatch));
    }
    var missing := g.HasMissingFields(row);
    if missing != 0 {
      return Rejected(Skipped(MissingRequired(missing)));
    }
    if row[0] !in refs.goDatabases {
      return Rejected(Skipped(InvalidDb));
    }
    var goRef := row[g.gorefIndex];
    var evidence := row[g.evidenceIndex];
    var eco := GetEcoCode(goRef, evidence, refs.collection, refs.gafEcoMap);
    if eco.Failure? {
      return Rejected(Aborted(eco.missingKey));
    }
    if eco.value == "" {
      return Rejected(Skipped(InvalidEvidence));
    }
    var relationship := g.GetGpadRelationship(row);
    if relationship == "" {
      return Rejected(Skipped(InvalidAspect));
    }
    c := Accepted(eco.value);
  }

  /** The evidence, annotation extension and qualifier assignments on the row list. */
  method Annotate(g: Gaf, cells: array<string>, eco: string)
    requires g.Valid() && cells.Length == |g.fields|
    modifies cells
    ensures cells[..] == Annotated(g, old(cells[..]), eco)
  {
    cells[g.evidenceIndex] := eco;
    var ae := PyIndex(g.annotationExtensionIndex, cells.Length);
    if cells[ae] != "" {
      cells[ae] := cells[ae] + "|" + eco;
    } else {
      cells[ae] := eco;
    }
    cells[g.qualIndex] := g.GetGpadRelationship(cells[..]);
  }

  /**
   * The rows a checked row turns into, computed on a list copy of the row:
   * the protein rewrite for a variant, then the annotation.
   */
  method RewriteRow(g: Gaf, row: seq<string>, eco: string, proteinMap: map<string, string>) returns (o: RowOutcome)
    requires g.Valid() && |row| == |g.fields|
    ensures o == old(ConvertChecked(g, row, eco, proteinMap))
  {
    ghost var spec := ConvertChecked(g, row, eco, proteinMap);
    var evidence := row[g.evidenceIndex];
    var parentId := g.GetParentGpId(row);
    var variant := g.IsGeneVariant(row);
    var fields, taxonIndex := g.fields, g.taxonIndex;
    if variant && '|' in row[g.productFormIdIndex] {
      return Skipped(InvalidFormId);
    }
    ghost var u := if variant then g.ProteinRewrite(row, proteinMap) else ProteinUpdate(0, row, proteinMap);
    ghost var annotated := Annotated(g, u.row, eco);
    var gafRow, proteins, emptyProteins := RewriteCells(g, row, eco, proteinMap);
    assert gafRow == annotated && proteins == u.proteins && emptyProteins == u.total;
    o := Converted(gafRow,
                   Projection(fields, taxonIndex, gafRow, GpadFields, true, variant, parentId, evidence),
                   Projection(fields, taxonIndex, gafRow, GpiFields, false, variant, parentId, evidence),
                   proteins, emptyProteins);
  }

  /** The protein rewrite of a variant and the annotation, applied to a list copy of the row. */
  method RewriteCells(g: Gaf, row: seq<string>, eco: string, proteinMap: map<string, string>)
    returns (gafRow: seq<string>, proteins: map<string, string>, emptyProteins: int)
    requires g.Valid() && |row| == |g.fields|
    ensures old(var u := if g.IsGeneVariant(row) then g.ProteinRewrite(row, proteinMap) else ProteinUpdate(0, row, proteinMap);
      gafRow == Annotated(g, u.row, eco) && proteins == u.proteins && emptyProteins == u.total)
  {
    ghost var u := if g.IsGeneVariant(row) then g.ProteinRewrite(row, proteinMap) else ProteinUpdate(0, row, proteinMap);
    ghost var annotated := Annotated(g, u.row, eco);
    var cells := new string[|row|](k requires 0 <= k < |row| => row[k]);
    assert cells[..] == row;
    proteins, emptyProteins := proteinMap, 0;
    if g.IsGeneVariant(row) {
      emptyProteins, proteins := g.SetProtein(proteinMap, cells);
    }
    assert cells[..] == u.row && proteins == u.proteins && emptyProteins == u.total;
    Annotate(g, cells, eco);
    gafRow := cells[..];
    assert gafRow == annotated;
  }

  /** The rewrite of a row that passed the checks, and the rows it writes. */
  method ConvertCheckedRow(g: Gaf, row: seq<string>, eco: string, proteinMap: map<string, string>,
                           gpad: RowWriter, gpi: RowWriter, filterMgi: bool)
    returns (o: RowOutcome)
    requires g.Valid() && |row| == |g.fields| && gpad != gpi
    modifies gpad, gpi
    ensures o == old(ConvertChecked(g, row, eco, proteinMap))
    ensures gpad.State() == if o.Converted? then Emit(old(gpad.State()), Join(o.gpadRow, "\t")) else old(gpad.State())
    ensures gpi.State() ==
      if o.Converted? && !filterMgi then Emit(old(gpi.State()), Join(o.gpiRow, "\t")) else old(gpi.State())
  {
    o := RewriteRow(g, row, eco, proteinMap);
    if o.Skipped? {
      return;
    }
    var evidence := row[g.evidenceIndex];
    var parentId := g.GetParentGpId(row);
    var variant := g.IsGeneVariant(row);
    var fields, taxonIndex := g.fields, g.taxonIndex;
    WriteGpRow(fields, taxonIndex, o.gafRow, gpad, GpadFields, true, variant, parentId, evidence);
    if !filterMgi {
      WriteGpRow(fields, taxonIndex, o.gafRow, gpi, GpiFields, false, variant, parentId, evidence);
    }
  }

  /**
   * The row loop body of `generateGpiGpad`: validate, resolve, rewrite the
   * row in place, then write the GPAD row and, unless only MGI genes are
   * wanted, the GPI row.
   */
  method ConvertGafRow(g: Gaf, row: seq<string>, refs: References, proteinMap: map<string, string>,
                       gpad: RowWriter, gpi: RowWriter, filterMgi: bool)
    returns (o: RowOutcome)
    requires g.Valid() && gpad != gpi
    modifies gpad, gpi
    ensures o == old(ForwardRow(g, row, refs, proteinMap))
    ensures gpad.State() == if o.Converted? then Emit(old(gpad.State()), Join(o.gpadRow, "\t")) else old(gpad.State())
    ensures gpi.State() ==
      if o.Converted? && !filterMgi then Emit(old(gpi.State()), Join(o.gpiRow, "\t")) else old(gpi.State())
  {
    var c := CheckGafRow(g, row, refs);
    if c.Rejected? {
      return c.outcome;
    }
    o := ConvertCheckedRow(g, row, c.eco, proteinMap, gpad, gpi, filterMgi);
  }

  /**
   * The state the row loop of `generateGpiGpad` carries from row to row: the
   * GPAD and GPI writers, `protein_map`, `totalEmptyProt`, and whether the
   * run has stopped.
   */
  datatype Run = Run(gpad: Sink, gpi: Sink, proteins: map<string, string>, emptyProteins: int, halt: Halt)

  /** The loop state before the first row. */
  function StartRun(gpad: Sink, gpi: Sink): (r: Run)
    ensures r.halt == Running && r.proteins == map[] && r.emptyProteins == 0
  {
    Run(gpad, gpi, map[], 0, Running)
  }

  /**
   * What a row's outcome does to the loop state: a skipped row changes
   * nothing, a `KeyError` stops the run, and a converted row is offered to
   * the GPAD writer and, unless only MGI genes are wanted, to the GPI
   * writer, and carries on the protein map and the empty-protein count.
   */
  function ApplyOutcome(run: Run, o: RowOutcome, filterMgi: bool): (r: Run)
    ensures !o.Converted? ==> r.gpad == run.gpad && r.gpi == run.gpi && r.proteins == run.proteins
    ensures r.halt == if o.Aborted? then Halted(o.missingKey) else run.halt
  {
    match o
    case Skipped(_) => run
    case Aborted(key) => run.(halt := Halted(key))
    case Converted(_, gpadRow, gpiRow, proteins, emptyProteins) =>
      run.(gpad := Emit(run.gpad, Join(gpadRow, "\t")),
           gpi := if filterMgi then run.gpi else Emit(run.gpi, Join(gpiRow, "\t")),
           proteins := proteins,
           emptyProteins := run.emptyProteins + emptyProteins)
  }

  /**
   * One pass of the row loop over one tab-split line: a line whose first
   * column starts with `!` is a header line and passes by; any other line is
   * converted as `ForwardRow` says. A stopped run takes no more rows.
   */
  function ForwardStep(g: Gaf, refs: References, filterMgi: bool, run: Run, line: seq<string>): (r: Run)
    reads g
    requires g.Valid() && |line| >= 1
    ensures run.halt.Halted? ==> r == run
  {
    if run.halt.Halted? || StartsWith(line[0], "!") then run
    else ApplyOutcome(run, ForwardRow(g, line, refs, run.proteins), filterMgi)
  }

  /** The row loop over every line of the GAF file, in order. */
  function ForwardRun(g: Gaf, refs: References, filterMgi: bool, run: Run, lines: seq<seq<string>>): Run
    reads g
    requires g.Valid() && forall k :: 0 <= k < |lines| ==> |lines[k]| >= 1
    decreases |lines|
  {
    if |lines| == 0 then run
    else ForwardRun(g, refs, filterMgi, ForwardStep(g, refs, filterMgi, run, lines[0]), lines[1..])
  }

  /** One pass of the row loop, on a running loop state. */
  method ForwardLine(g: Gaf, line: seq<string>, refs: References, gpad: RowWriter, gpi: RowWriter, filterMgi: bool,
                     proteins: map<string, string>, emptyProteins: int)
    returns (proteins': map<string, string>, emptyProteins': int, halt: Halt)
    requires g.Valid() && gpad != gpi && |line| >= 1
    modifies gpad, gpi
    ensures Run(gpad.State(), gpi.State(), proteins', emptyProteins', halt) ==
      old(ForwardStep(g, refs, filterMgi, Run(gpad.State(), gpi.State(), proteins, emptyProteins, Running), line))
  {
    ghost var start := Run(gpad.State(), gpi.State(), proteins, emptyProteins, Running);
    ghost var spec := ForwardStep(g, refs, filterMgi, start, line);
    proteins', emptyProteins', halt := proteins, emptyProteins, Running;
    if !StartsWith(line[0], "!") {
      ghost var expected := ForwardRow(g, line, refs, proteins);
      assert spec == ApplyOutcome(start, expected, filterMgi);
      var o := ConvertGafRow(g, line, refs, proteins, gpad, gpi, filterMgi);
      assert o == expected;
      ghost var written := Run(gpad.State(), gpi.State(), proteins, emptyProteins, Running);
      if o.Aborted? {
        halt := Halted(o.missingKey);
        assert written == start;
      } else if o.Converted? {
        proteins', emptyProteins' := o.proteins, emptyProteins + o.emptyProteins;
        assert written.gpad == ApplyOutcome(start, o, filterMgi).gpad;
        assert written.gpi == ApplyOutcome(start, o, filterMgi).gpi;
      } else {
        assert written == start;
      }
    }
  }

  /**
   * The row loop of `generateGpiGpad`: each GAF line is converted and its
   * rows written; the loop stops at the first `KeyError`.
   */
  method ConvertGafRows(g: Gaf, lines: seq<seq<string>>, refs: References, gpad: RowWriter, gpi: RowWriter,
                        filterMgi: bool)
    returns (proteins: map<string, string>, emptyProteins: int, halt: Halt)
    requires g.Valid() && gpad != gpi && forall k :: 0 <= k < |lines| ==> |lines[k]| >= 1
    modifies gpad, gpi
    ensures Run(gpad.State(), gpi.State(), proteins, emptyProteins, halt) ==
      old(ForwardRun(g, refs, filterMgi, StartRun(gpad.State(), gpi.State()), lines))
  {
    ghost var final := ForwardRun(g, refs, filterMgi, StartRun(gpad.State(), gpi.State()), lines);
    proteins, emptyProteins, halt := map[], 0, Running;
    var i := 0;
    while i < |lines| && halt == Running
      invariant 0 <= i <= |lines|
      invariant ForwardRun(g, refs, filterMgi, Run(gpad.State(), gpi.State(), proteins, emptyProteins, halt), lines[i..]) == final
    {
      ForwardRunFrom(g, refs, filterMgi, Run(gpad.State(), gpi.State(), proteins, emptyProteins, halt), lines, i);
      proteins, emptyProteins, halt := ForwardLine(g, lines[i], refs, gpad, gpi, filterMgi, proteins, emptyProteins);
      i := i + 1;
    }
    if halt.Halted? {
      HaltedRunStays(g, refs, filterMgi, Run(gpad.State(), gpi.State(), proteins, emptyProteins, halt), lines[i..]);
    }
  }

  /**
   * `generateGpiGpad` without its header block and its log: the version is
   * read from the top of the GAF file, a fresh `gaf` is set up for it, the
   * header lines are collected and the row loop runs over the file's rows
   * into two new files. When MGI filtering is on and no `KeyError` stopped
   * the loop, the call to `generateGPI_mgi` raises `NameError` on its first
   * line: the report's file name `LOCAL_MGI_REPORT_FILE` is defined neither
   * in the parser nor in `config` (only `LOCAL_MRK_REPORT_FILE` is). The run
   * ends there, so the GPI file holds only what the row loop wrote, which
   * under filtering is nothing.
   */
  method GenerateGpiGpad(gafText: seq<string>, gafRows: seq<seq<string>>, refs: References, filterMgi: bool)
    returns (g: Gaf, version: string, header: seq<string>, gpad: RowWriter, gpi: RowWriter,
             proteins: map<string, string>, emptyProteins: int, halt: Halt, nameError: bool)
    requires forall k :: 0 <= k < |gafRows| ==> |gafRows[k]| >= 1
    ensures version == GafVersion(gafText) && header == GFileHeader(gafText)
    ensures fresh(g) && g.Valid() && g.fields == GafFieldsFor(version) && fresh(gpad) && fresh(gpi) && gpad != gpi
    ensures var r := ForwardRun(g, refs, filterMgi, StartRun(Fresh, Fresh), gafRows);
      gpad.State() == r.gpad && gpi.State() == r.gpi && proteins == r.proteins &&
      emptyProteins == r.emptyProteins && halt == r.halt
    ensures nameError <==> filterMgi && halt.Running?
    ensures filterMgi ==> gpi.State() == Fresh
  {
    g, version, header, gpad, gpi, proteins, emptyProteins, halt := ConvertGafFile(gafText, gafRows, refs, filterMgi);
    FilteredRunLeavesGpi(g, refs, StartRun(Fresh, Fresh), gafRows);
    nameError := filterMgi && halt == Running;
  }

  /** With MGI filtering on, the row loop never writes to the GPI file. */
  lemma {:induction false} FilteredRunLeavesGpi(g: Gaf, refs: References, run: Run, lines: seq<seq<string>>)
    requires g.Valid() && forall k :: 0 <= k < |lines| ==> |lines[k]| >= 1
    ensures ForwardRun(g, refs, true, run, lines).gpi == run.gpi
    decreases |lines|
  {
    if |lines| > 0 {
      var next := ForwardStep(g, refs, true, run, lines[0]);
      assert next.gpi == run.gpi;
      FilteredRunLeavesGpi(g, refs, next, lines[1..]);
    }
  }

  /** The GAF part of `generateGpiGpad`: the set-up, two new files and the row loop. */
  method ConvertGafFile(gafText: seq<string>, gafRows: seq<seq<string>>, refs: References, filterMgi: bool)
    returns (g: Gaf, version: string, header: seq<string>, gpad: RowWriter, gpi: RowWriter,
             proteins: map<string, string>, emptyProteins: int, halt: Halt)
    requires forall k :: 0 <= k < |gafRows| ==> |gafRows[k]| >= 1
    ensures version == GafVersion(gafText) && header == GFileHeader(gafText)
    ensures fresh(g) && g.Valid() && g.fields == GafFieldsFor(version) && fresh(gpad) && fresh(gpi) && gpad != gpi
    ensures Run(gpad.State(), gpi.State(), proteins, emptyProteins, halt) ==
      ForwardRun(g, refs, filterMgi, StartRun(Fresh, Fresh), gafRows)
    ensures forall p :: p in proteins ==> ':' in p
  {
    g, version, header := PrepareGpiGpad(gafText);
    gpad := new RowWriter();
    gpi := new RowWriter();
    RunInvariants(g, refs, filterMgi, StartRun(Fresh, Fresh), gafRows);
    proteins, emptyProteins, halt := ConvertGafRows(g, gafRows, refs, gpad, gpi, filterMgi);
  }

  /** The set-up of `generateGpiGpad`: the version and header of the GAF file, and a fresh `gaf` for the version. */
  method PrepareGpiGpad(gafText: seq<string>) returns (g: Gaf, version: string, header: seq<string>)
    ensures version == GafVersion(gafText) && header == GFileHeader(gafText)
    ensures fresh(g) && g.Valid() && g.fields == GafFieldsFor(version)
  {
    version := GetGafVersion(gafText);
    g := new Gaf();
    g.Init(version);
    header := GetGFileHeader(gafText, []);
  }

  /** The run over the lines from `i` on is line `i`'s step, then the run over the lines after it. */
  lemma ForwardRunFrom(g: Gaf, refs: References, filterMgi: bool, run: Run, lines: seq<seq<string>>, i: nat)
    requires g.Valid() && i < |lines| && forall k :: 0 <= k < |lines| ==> |lines[k]| >= 1
    ensures ForwardRun(g, refs, filterMgi, run, lines[i..]) ==
      ForwardRun(g, refs, filterMgi, ForwardStep(g, refs, filterMgi, run, lines[i]), lines[i + 1..])
  {
    assert lines[i..][1..] == lines[i + 1..];
  }

  /** A stopped run stays as it is for the rest of the file. */
  lemma {:induction false} HaltedRunStays(g: Gaf, refs: References, filterMgi: bool, run: Run, lines: seq<seq<string>>)
    requires g.Valid() && forall k :: 0 <= k < |lines| ==> |lines[k]| >= 1
    requires run.halt.Halted?
    ensures ForwardRun(g, refs, filterMgi, run, lines) == run
    decreases |lines|
  {
    if |lines| > 0 {
      HaltedRunStays(g, refs, filterMgi, run, lines[1..]);
    }
  }

  /**
   * The GPI row `writeGP_row` builds from a GAF row whose layout starts with
   * the 15 shared GAF columns: GAF columns copied by name, the taxon's first
   * component, the parent id for a variant and a single space in the other
   * two columns GAF lacks.
   */
  lemma GpiProjection(fields: seq<Column>, gafRow: seq<string>, isVariant: bool, parentId: string, evidence: string)
    requires Distinct(fields) && |fields| >= 15 && fields[..15] == Gaf1Fields && |gafRow| == |fields|
    requires ParentObjectId !in fields && DbXref !in fields
    ensures var out := Projection(fields, 12, gafRow, GpiFields, false, isVariant, parentId, evidence);
      out[GpiDbIndex] == gafRow[0] && out[GpiObjectIndex] == gafRow[1] && out[GpiObjectSymbolIndex] == gafRow[2] &&
      out[GpiObjectNameIndex] == gafRow[9] && out[GpiObjectSynonymIndex] == gafRow[10] &&
      out[GpiObjectTypeIndex] == gafRow[11] && out[GpiTaxonIndex] == ProjectedTaxon(gafRow[12], false) &&
      out[GpiParentIndex] == (if isVariant then parentId else " ") && out[8] == " "
  {
    Gaf1Prefix(fields);
    IndexOfDistinct(fields, 12);
    GpiColumn(fields, gafRow, isVariant, parentId, evidence, 0, 0);
    GpiColumn(fields, gafRow, isVariant, parentId, evidence, 1, 1);
    GpiColumn(fields, gafRow, isVariant, parentId, evidence, 2, 2);
    GpiColumn(fields, gafRow, isVariant, parentId, evidence, 9, 3);
    GpiColumn(fields, gafRow, isVariant, parentId, evidence, 10, 4);
    GpiColumn(fields, gafRow, isVariant, parentId, evidence, 11, 5);
    GpiColumn(fields, gafRow, isVariant, parentId, evidence, 12, 6);
    GpiBlankColumn(fields, gafRow, isVariant, parentId, evidence, 7);
    GpiBlankColumn(fields, gafRow, isVariant, parentId, evidence, 8);
  }

  /** A GPI column named like GAF column `j` is a copy of it, the taxon projected. */
  lemma GpiColumn(fields: seq<Column>, gafRow: seq<string>, isVariant: bool, parentId: string, evidence: string,
                  j: int, i: int)
    requires Distinct(fields) && |gafRow| == |fields| && IndexOf(fields, Taxon) == 12
    requires 0 <= j < |fields| && 0 <= i < |GpiFields| && fields[j] == GpiFields[i]
    ensures Projection(fields, 12, gafRow, GpiFields, false, isVariant, parentId, evidence)[i] ==
      if GpiFields[i] == Taxon then ProjectedTaxon(gafRow[j], false) else gafRow[j]
  {
    ProjectionByName(fields, 12, gafRow, GpiFields, false, isVariant, parentId, evidence);
  }

  /** A GPI column GAF lacks is the parent id for a variant's parent column, and a space otherwise. */
  lemma GpiBlankColumn(fields: seq<Column>, gafRow: seq<string>, isVariant: bool, parentId: string, evidence: string,
                       i: int)
    requires Distinct(fields) && |gafRow| == |fields| && IndexOf(fields, Taxon) == 12
    requires 0 <= i < |GpiFields| && GpiFields[i] !in fields
    ensures Projection(fields, 12, gafRow, GpiFields, false, isVariant, parentId, evidence)[i] ==
      if i == GpiParentIndex && isVariant then parentId else " "
  {
    ProjectionByName(fields, 12, gafRow, GpiFields, false, isVariant, parentId, evidence);
  }


  /**
   * The GPAD row `writeGP_row` builds from a GAF row whose layout starts
   * with the 15 shared GAF columns: GAF columns copied by name, the taxon
   * cut down to its interacting taxa, Annotation_Properties the evidence
   * code, and Annotation_Extension copied from GAF 2.0's column 16 or, when
   * the layout has no such column, a single space.
   */
  lemma GpadProjection(fields: seq<Column>, gafRow: seq<string>, isVariant: bool, parentId: string, evidence: string)
    requires Distinct(fields) && |fields| >= 15 && fields[..15] == Gaf1Fields && |gafRow| == |fields|
    requires AnnotationProperties !in fields
    requires if |fields| > 15 then fields[15] == AnnotationExtension else AnnotationExtension !in fields
    ensures var out := Projection(fields, 12, gafRow, GpadFields, true, isVariant, parentId, evidence);
      out[GpadDbIndex] == gafRow[0] && out[GpadObjectIndex] == gafRow[1] &&
      out[GpadRelationshipIndex] == gafRow[3] && out[GpadGoIdIndex] == gafRow[4] &&
      out[GpadGorefIndex] == gafRow[5] && out[GpadEvidenceIndex] == gafRow[6] && out[6] == gafRow[7] &&
      out[GpadTaxonIndex] == ProjectedTaxon(gafRow[12], true) && out[8] == gafRow[13] && out[9] == gafRow[14] &&
      out[GpadAnnotExtensionIndex] == (if |fields| > 15 then gafRow[15] else " ") &&
      out[GpadAnnotPropertiesIndex] == evidence
  {
    assert fields[12] == Gaf1Fields[12];
    IndexOfDistinct(fields, 12);
    GpadProjectionFront(fields, gafRow, isVariant, parentId, evidence);
    GpadProjectionBack(fields, gafRow, isVariant, parentId, evidence);
  }

  /** The first seven GPAD columns of the projection: copies of GAF columns 0, 1 and 3 to 7. */
  lemma GpadProjectionFront(fields: seq<Column>, gafRow: seq<string>, isVariant: bool, parentId: string, evidence: string)
    requires Distinct(fields) && |fields| >= 15 && fields[..15] == Gaf1Fields && |gafRow| == |fields|
    requires IndexOf(fields, Taxon) == 12
    ensures var out := Projection(fields, 12, gafRow, GpadFields, true, isVariant, parentId, evidence);
      out[GpadDbIndex] == gafRow[0] && out[GpadObjectIndex] == gafRow[1] &&
      out[GpadRelationshipIndex] == gafRow[3] && out[GpadGoIdIndex] == gafRow[4] &&
      out[GpadGorefIndex] == gafRow[5] && out[GpadEvidenceIndex] == gafRow[6] && out[6] == gafRow[7]
  {
    Gaf1Prefix(fields);
    CopiedColumn(fields, gafRow, isVariant, parentId, evidence, 0, 0, Db);
    CopiedColumn(fields, gafRow, isVariant, parentId, evidence, 1, 1, DbObjectId);
    CopiedColumn(fields, gafRow, isVariant, parentId, evidence, 3, 2, Qualifier);
    CopiedColumn(fields, gafRow, isVariant, parentId, evidence, 4, 3, GoId);
    CopiedColumn(fields, gafRow, isVariant, parentId, evidence, 5, 4, DbReference);
    CopiedColumn(fields, gafRow, isVariant, parentId, evidence, 6, 5, EvidenceCode);
    CopiedColumn(fields, gafRow, isVariant, parentId, evidence, 7, 6, With);
  }

  /** A GPAD column named like GAF column `j` (and not the taxon) is a copy of it. */
  lemma CopiedColumn(fields: seq<Column>, gafRow: seq<string>, isVariant: bool, parentId: string, evidence: string,
                     j: int, i: int, name: Column)
    requires Distinct(fields) && |gafRow| == |fields| && IndexOf(fields, Taxon) == 12
    requires 0 <= j < |fields| && 0 <= i < |GpadFields| && fields[j] == name && GpadFields[i] == name && name != Taxon
    ensures Projection(fields, 12, gafRow, GpadFields, true, isVariant, parentId, evidence)[i] == gafRow[j]
  {
    ProjectionByName(fields, 12, gafRow, GpadFields, true, isVariant, parentId, evidence);
  }

  /** The last five GPAD columns of the projection: the taxon, GAF columns 13 and 14, the extension and the evidence code. */
  lemma GpadProjectionBack(fields: seq<Column>, gafRow: seq<string>, isVariant: bool, parentId: string, evidence: string)
    requires Distinct(fields) && |fields| >= 15 && fields[..15] == Gaf1Fields && |gafRow| == |fields|
    requires IndexOf(fields, Taxon) == 12
    requires AnnotationProperties !in fields
    requires if |fields| > 15 then fields[15] == AnnotationExtension else AnnotationExtension !in fields
    ensures var out := Projection(fields, 12, gafRow, GpadFields, true, isVariant, parentId, evidence);
      out[GpadTaxonIndex] == ProjectedTaxon(gafRow[12], true) && out[8] == gafRow[13] && out[9] == gafRow[14] &&
      out[GpadAnnotExtensionIndex] == (if |fields| > 15 then gafRow[15] else " ") &&
      out[GpadAnnotPropertiesIndex] == evidence
  {
    ProjectionByName(fields, 12, gafRow, GpadFields, true, isVariant, parentId, evidence);
    assert fields[12] == Gaf1Fields[12] == GpadFields[7];
    assert fields[13] == Gaf1Fields[13] == GpadFields[8];
    assert fields[14] == Gaf1Fields[14] == GpadFields[9];
    if |fields| > 15 {
      assert fields[15] == GpadFields[10];
    }
  }

  /** An annotation extension with the ECO code added: `ext|eco`, or `eco` alone when it was empty. */
  function WithEco(ext: string, eco: string): (r: string)
    ensures ext != "" ==> |r| == |ext| + 1 + |eco| && r[..|ext|] == ext && r[|ext|] == '|' && r[|ext| + 1..] == eco
    ensures ext == "" ==> r == eco
  {
    if ext != "" then ext + "|" + eco else eco
  }

  /**
   * The annotation edits on a row laid out by `_init(version)`: the
   * evidence column holds the ECO code, the qualifier column the
   * relationship of the row, and the ECO code is added to the annotation
   * extension under GAF 2.0 but, through the index -1, to the last column
   * (Assigned_By) under GAF 1.0; no other column changes.
   */
  lemma AnnotatedColumns(g: Gaf, version: string, row: seq<string>, eco: string)
    requires g.Valid() && g.Layout(version) && |row| == |g.fields|
    ensures var r := Annotated(g, row, eco);
      var ae := if Contains(version, "1.") then 14 else 15;
      r[6] == eco && r[3] == g.GetGpadRelationship(row) && r[ae] == WithEco(row[ae], eco) &&
      forall k :: 0 <= k < |row| && k != 3 && k != 6 && k != ae ==> r[k] == row[k]
  {
    GafFieldsForShape(version);
    var r1 := row[6 := eco];
    var ae := PyIndex(g.annotationExtensionIndex, |r1|);
    var r2 := r1[ae := WithEco(r1[ae], eco)];
    RelationshipColumns(g, r2, row);
  }

  /**
   * The protein step of the row loop on a row laid out by `_init(version)`:
   * a variant (only possible under GAF 2.0) gets DB and object id spelling
   * its form id and records its old object id under the form id; any other
   * row is left as it is. Columns from Object_Symbol on never change.
   */
  lemma RewrittenIds(g: Gaf, version: string, row: seq<string>, proteins: map<string, string>)
    requires g.Valid() && g.Layout(version) && |row| == |g.fields|
    ensures var variant := g.IsGeneVariant(row);
      var u := if variant then g.ProteinRewrite(row, proteins) else ProteinUpdate(0, row, proteins);
      |u.row| == |row| && (forall k :: 2 <= k < |row| ==> u.row[k] == row[k]) &&
      (variant ==> !Contains(version, "1.") && u.row[0] + ":" + u.row[1] == row[16] && ':' !in u.row[0] &&
                   u.proteins == proteins[row[16] := row[1]] && u.total == 0) &&
      (!variant ==> u.row == row && u.proteins == proteins && u.total == 0)
  {
    if g.IsGeneVariant(row) {
      ProteinRewriteRestores(g, row, proteins);
    }
  }

  /**
   * The GAF row the forward converter projects from, for a row laid out by
   * `_init(version)`: the annotation edits of `AnnotatedColumns` on top of
   * the protein step of `RewrittenIds`.
   */
  lemma ForwardGafRow(g: Gaf, version: string, row: seq<string>, eco: string, proteins: map<string, string>)
    requires g.Valid() && g.Layout(version) && |row| == |g.fields|
    requires ConvertChecked(g, row, eco, proteins).Converted?
    ensures var o := ConvertChecked(g, row, eco, proteins);
      var r := o.gafRow;
      var ae := if Contains(version, "1.") then 14 else 15;
      |r| == |row| && r[6] == eco && r[3] == g.GetGpadRelationship(row) && r[ae] == WithEco(row[ae], eco) &&
      (forall k :: 2 <= k < |row| && k != 3 && k != 6 && k != ae ==> r[k] == row[k]) &&
      (g.IsGeneVariant(row) ==> r[0] + ":" + r[1] == row[16] && ':' !in r[0]) &&
      (!g.IsGeneVariant(row) ==> r[0] == row[0] && r[1] == row[1]) &&
      o.gpadRow == Projection(g.fields, 12, r, GpadFields, true, g.IsGeneVariant(row), row[0] + ":" + row[1], row[6]) &&
      o.gpiRow == Projection(g.fields, 12, r, GpiFields, false, g.IsGeneVariant(row), row[0] + ":" + row[1], row[6])
  {
    var variant := g.IsGeneVariant(row);
    var u := if variant then g.ProteinRewrite(row, proteins) else ProteinUpdate(0, row, proteins);
    RewrittenIds(g, version, row, proteins);
    AnnotatedColumns(g, version, u.row, eco);
    RelationshipColumns(g, u.row, row);
  }

  /**
   * What the forward converter writes to GPAD for a row laid out by
   * `_init(version)`: the relationship of the row, the ECO code as
   * evidence, the original evidence code as Annotation_Properties, the
   * interacting taxa, and the ECO code added to the annotation extension
   * (GAF 2.0) or to Assigned_By (GAF 1.0, whose GPAD annotation extension
   * is a single space). A variant's DB and object id spell its form id;
   * any other row keeps its own.
   */
  lemma ForwardGpadRow(g: Gaf, version: string, row: seq<string>, eco: string, proteins: map<string, string>)
    requires g.Valid() && g.Layout(version) && |row| == |g.fields|
    requires ConvertChecked(g, row, eco, proteins).Converted?
    ensures var out := ConvertChecked(g, row, eco, proteins).gpadRow;
      var gaf1 := Contains(version, "1.");
      out[GpadRelationshipIndex] == g.GetGpadRelationship(row) && out[GpadGoIdIndex] == row[4] &&
      out[GpadGorefIndex] == row[5] && out[GpadEvidenceIndex] == eco && out[6] == row[7] &&
      out[GpadTaxonIndex] == ProjectedTaxon(row[12], true) && out[8] == row[13] &&
      out[9] == (if gaf1 then WithEco(row[14], eco) else row[14]) &&
      out[GpadAnnotExtensionIndex] == (if gaf1 then " " else WithEco(row[15], eco)) &&
      out[GpadAnnotPropertiesIndex] == row[6] &&
      (g.IsGeneVariant(row) ==> out[GpadDbIndex] + ":" + out[GpadObjectIndex] == row[16]) &&
      (!g.IsGeneVariant(row) ==> out[GpadDbIndex] == row[0] && out[GpadObjectIndex] == row[1])
  {
    ForwardGafRow(g, version, row, eco, proteins);
    GafFieldsForShape(version);
    GafLacksTargetColumns(version);
    GpadTrace(g.fields, row, ConvertChecked(g, row, eco, proteins).gafRow, eco, g.GetGpadRelationship(row),
              g.IsGeneVariant(row), row[0] + ":" + row[1], if Contains(version, "1.") then 14 else 15);
  }

  /** The GPAD columns of the projection of an edited row, traced back to the row before the edits. */
  lemma GpadTrace(fields: seq<Column>, row: seq<string>, r: seq<string>, eco: string, rel: string,
                  variant: bool, parentId: string, ae: int)
    requires Distinct(fields) && |fields| >= 15 && fields[..15] == Gaf1Fields && |row| == |r| == |fields|
    requires AnnotationProperties !in fields
    requires if |fields| > 15 then fields[15] == AnnotationExtension else AnnotationExtension !in fields
    requires ae == if |fields| > 15 then 15 else 14
    requires r[6] == eco && r[3] == rel && r[ae] == WithEco(row[ae], eco)
    requires forall k :: 2 <= k < |row| && k != 3 && k != 6 && k != ae ==> r[k] == row[k]
    ensures var out := Projection(fields, 12, r, GpadFields, true, variant, parentId, row[6]);
      out[GpadDbIndex] == r[0] && out[GpadObjectIndex] == r[1] &&
      out[GpadRelationshipIndex] == rel && out[GpadGoIdIndex] == row[4] &&
      out[GpadGorefIndex] == row[5] && out[GpadEvidenceIndex] == eco && out[6] == row[7] &&
      out[GpadTaxonIndex] == ProjectedTaxon(row[12], true) && out[8] == row[13] &&
      out[9] == (if |fields| > 15 then row[14] else WithEco(row[14], eco)) &&
      out[GpadAnnotExtensionIndex] == (if |fields| > 15 then WithEco(row[15], eco) else " ") &&
      out[GpadAnnotPropertiesIndex] == row[6]
  {
    GpadProjection(fields, r, variant, parentId, row[6]);
    assert r[4] == row[4] && r[5] == row[5] && r[7] == row[7] && r[12] == row[12] && r[13] == row[13];
  }

  /**
   * What the forward converter writes to GPI for a row laid out by
   * `_init(version)`: the object columns, the first taxon, and for a
   * variant the original `DB:DB_Object_ID` as parent, taken before the
   * protein rewrite replaced them.
   */
  lemma ForwardGpiRow(g: Gaf, version: string, row: seq<string>, eco: string, proteins: map<string, string>)
    requires g.Valid() && g.Layout(version) && |row| == |g.fields|
    requires ConvertChecked(g, row, eco, proteins).Converted?
    ensures var o := ConvertChecked(g, row, eco, proteins);
      var out := o.gpiRow;
      out[GpiDbIndex] == o.gpadRow[GpadDbIndex] && out[GpiObjectIndex] == o.gpadRow[GpadObjectIndex] &&
      out[GpiObjectSymbolIndex] == row[2] && out[GpiObjectNameIndex] == row[9] &&
      out[GpiObjectSynonymIndex] == row[10] && out[GpiObjectTypeIndex] == row[11] &&
      out[GpiTaxonIndex] == ProjectedTaxon(row[12], false) &&
      out[GpiParentIndex] == (if g.IsGeneVariant(row) then row[0] + ":" + row[1] else " ") && out[8] == " "
  {
    ForwardGafRow(g, version, row, eco, proteins);
    GafFieldsForShape(version);
    GafLacksTargetColumns(version);
    GpiTrace(g.fields, row, ConvertChecked(g, row, eco, proteins).gafRow, eco, g.GetGpadRelationship(row),
             g.IsGeneVariant(row), row[0] + ":" + row[1], if Contains(version, "1.") then 14 else 15);
  }

  /** The GPI columns of the projection of an edited row, traced back to the row before the edits. */
  lemma GpiTrace(fields: seq<Column>, row: seq<string>, r: seq<string>, eco: string, rel: string,
                 variant: bool, parentId: string, ae: int)
    requires Distinct(fields) && |fields| >= 15 && fields[..15] == Gaf1Fields && |row| == |r| == |fields|
    requires AnnotationProperties !in fields && ParentObjectId !in fields && DbXref !in fields
    requires if |fields| > 15 then fields[15] == AnnotationExtension else AnnotationExtension !in fields
    requires ae == if |fields| > 15 then 15 else 14
    requires forall k :: 2 <= k < |row| && k != 3 && k != 6 && k != ae ==> r[k] == row[k]
    ensures var out := Projection(fields, 12, r, GpiFields, false, variant, parentId, row[6]);
      var gpad := Projection(fields, 12, r, GpadFields, true, variant, parentId, row[6]);
      out[GpiDbIndex] == gpad[GpadDbIndex] && out[GpiObjectIndex] == gpad[GpadObjectIndex] &&
      out[GpiObjectSymbolIndex] == row[2] && out[GpiObjectNameIndex] == row[9] &&
      out[GpiObjectSynonymIndex] == row[10] && out[GpiObjectTypeIndex] == row[11] &&
      out[GpiTaxonIndex] == ProjectedTaxon(row[12], false) &&
      out[GpiParentIndex] == (if variant then parentId else " ") && out[8] == " "
  {
    GpadProjection(fields, r, variant, parentId, row[6]);
    GpiProjection(fields, r, variant, parentId, row[6]);
    assert r[2] == row[2] && r[9] == row[9] && r[10] == row[10] && r[11] == row[11] && r[12] == row[12];
  }

  /**
   * The protein map and the empty-form count a converted row carries on: a
   * variant records its original object id under its form id; no row under
   * GAF 1.0 is a variant, and only a GAF 2.0 row with an empty form id
   * counts as an empty protein.
   */
  lemma ForwardProteins(g: Gaf, version: string, row: seq<string>, eco: string, proteins: map<string, string>)
    requires g.Valid() && g.Layout(version) && |row| == |g.fields|
    requires ConvertChecked(g, row, eco, proteins).Converted?
    ensures var o := ConvertChecked(g, row, eco, proteins);
      o.proteins == (if g.IsGeneVariant(row) then proteins[row[16] := row[1]] else proteins) &&
      (g.IsGeneVariant(row) ==> ':' in row[16] && '|' !in row[16]) &&
      o.emptyProteins == 0
  {
    RewrittenIds(g, version, row, proteins);
  }

  /**
   * The rows the forward converter writes, stated apart from the order of
   * the checks: the right number of columns, every required column filled,
   * a registered DB, an evidence code that resolves to a non-empty ECO code,
   * an aspect with a relation, and no `|` in a variant's form id.
   */
  predicate Convertible(g: Gaf, row: seq<string>, refs: References)
    reads g
    requires g.Valid()
  {
    |row| == |g.fields| && RequiredPresent(g.fields, RequiredGafFields, row) &&
    row[0] in refs.goDatabases &&
    EcoCode(row[g.gorefIndex], row[g.evidenceIndex], refs.collection, refs.gafEcoMap).Success? &&
    EcoCode(row[g.gorefIndex], row[g.evidenceIndex], refs.collection, refs.gafEcoMap).value != "" &&
    AspectKey(row[g.aspectIndex]) in Aspect2Rln &&
    !(g.IsGeneVariant(row) && '|' in row[g.productFormIdIndex])
  }

  /**
   * The drop rules: a row is converted exactly when it is convertible, and
   * the conversion stops exactly when a row that passed the count, required
   * and DB checks has an evidence code with neither key in the ECO map.
   */
  lemma ConvertedExactly(g: Gaf, row: seq<string>, refs: References, proteins: map<string, string>)
    requires g.Valid()
    ensures ForwardRow(g, row, refs, proteins).Converted? <==> Convertible(g, row, refs)
    ensures ForwardRow(g, row, refs, proteins).Aborted? <==>
      |row| == |g.fields| && RequiredPresent(g.fields, RequiredGafFields, row) &&
      row[0] in refs.goDatabases &&
      EcoCode(row[g.gorefIndex], row[g.evidenceIndex], refs.collection, refs.gafEcoMap).Failure?
  {
    DbObjectDistinct(g);
  }

  /**
   * A line the row loop does not convert writes nothing: only a convertible
   * non-header line of a running loop reaches the GPAD or the GPI file.
   */
  lemma SkippedRowsWriteNothing(g: Gaf, refs: References, filterMgi: bool, run: Run, line: seq<string>)
    requires g.Valid() && |line| >= 1
    ensures var r := ForwardStep(g, refs, filterMgi, run, line);
      r.gpad != run.gpad || r.gpi != run.gpi ==>
        run.halt.Running? && !StartsWith(line[0], "!") && Convertible(g, line, refs)
  {
    if run.halt.Running? && !StartsWith(line[0], "!") {
      ConvertedExactly(g, line, refs, run.proteins);
    }
  }

  /** A key of the protein map is a form id: it has a colon and no `|`. */
  ghost predicate FormIdKeys(proteins: map<string, string>)
  {
    forall key :: key in proteins ==> ':' in key && '|' !in key
  }

  /**
   * Every line the row loop writes is written once, the dictionaries of
   * displayed lines only grow, earlier lines stay in the files, and the
   * protein map is keyed by form ids only.
   */
  lemma {:induction false} RunInvariants(g: Gaf, refs: References, filterMgi: bool, run: Run, lines: seq<seq<string>>)
    requires g.Valid() && forall k :: 0 <= k < |lines| ==> |lines[k]| >= 1
    requires Deduplicated(run.gpad) && Deduplicated(run.gpi) && FormIdKeys(run.proteins)
    ensures var r := ForwardRun(g, refs, filterMgi, run, lines);
      Deduplicated(r.gpad) && Deduplicated(r.gpi) && FormIdKeys(r.proteins) &&
      run.gpad.displayed <= r.gpad.displayed && run.gpi.displayed <= r.gpi.displayed &&
      |run.gpad.lines| <= |r.gpad.lines| && r.gpad.lines[..|run.gpad.lines|] == run.gpad.lines &&
      |run.gpi.lines| <= |r.gpi.lines| && r.gpi.lines[..|run.gpi.lines|] == run.gpi.lines
    decreases |lines|
  {
    if |lines| > 0 {
      var next := ForwardStep(g, refs, filterMgi, run, lines[0]);
      StepInvariants(g, refs, filterMgi, run, lines[0]);
      RunInvariants(g, refs, filterMgi, next, lines[1..]);
      var r := ForwardRun(g, refs, filterMgi, next, lines[1..]);
      assert r.gpad.lines[..|run.gpad.lines|] == r.gpad.lines[..|next.gpad.lines|][..|run.gpad.lines|];
      assert r.gpi.lines[..|run.gpi.lines|] == r.gpi.lines[..|next.gpi.lines|][..|run.gpi.lines|];
    }
  }

  /** One pass of the row loop keeps the invariants of `RunInvariants`. */
  lemma StepInvariants(g: Gaf, refs: References, filterMgi: bool, run: Run, line: seq<string>)
    requires g.Valid() && |line| >= 1
    requires Deduplicated(run.gpad) && Deduplicated(run.gpi) && FormIdKeys(run.proteins)
    ensures var r := ForwardStep(g, refs, filterMgi, run, line);
      Deduplicated(r.gpad) && Deduplicated(r.gpi) && FormIdKeys(r.proteins) &&
      run.gpad.displayed <= r.gpad.displayed && run.gpi.displayed <= r.gpi.displayed &&
      |run.gpad.lines| <= |r.gpad.lines| && r.gpad.lines[..|run.gpad.lines|] == run.gpad.lines &&
      |run.gpi.lines| <= |r.gpi.lines| && r.gpi.lines[..|run.gpi.lines|] == run.gpi.lines
  {
    if run.halt.Running? && !StartsWith(line[0], "!") {
      var o := ForwardRow(g, line, refs, run.proteins);
      ForwardRowKeys(g, line, refs, run.proteins);
      ApplyInvariants(run, o, filterMgi);
    }
  }

  /** A row outcome only adds form ids, with a colon and no `|`, to the protein map. */
  lemma ForwardRowKeys(g: Gaf, line: seq<string>, refs: References, proteins: map<string, string>)
    requires g.Valid() && FormIdKeys(proteins)
    ensures var o := ForwardRow(g, line, refs, proteins); o.Converted? ==> FormIdKeys(o.proteins)
  {
    var o := ForwardRow(g, line, refs, proteins);
    if o.Converted? {
      var eco := CheckRow(g, line, refs).eco;
      ConvertedProteinKeys(g, line, eco, proteins);
    }
  }

  /** Applying a row outcome keeps the invariants of `RunInvariants`. */
  lemma ApplyInvariants(run: Run, o: RowOutcome, filterMgi: bool)
    requires Deduplicated(run.gpad) && Deduplicated(run.gpi) && FormIdKeys(run.proteins)
    requires o.Converted? ==> FormIdKeys(o.proteins)
    ensures var r := ApplyOutcome(run, o, filterMgi);
      Deduplicated(r.gpad) && Deduplicated(r.gpi) && FormIdKeys(r.proteins) &&
      run.gpad.displayed <= r.gpad.displayed && run.gpi.displayed <= r.gpi.displayed &&
      |run.gpad.lines| <= |r.gpad.lines| && r.gpad.lines[..|run.gpad.lines|] == run.gpad.lines &&
      |run.gpi.lines| <= |r.gpi.lines| && r.gpi.lines[..|run.gpi.lines|] == run.gpi.lines
  {
  }

  /** A converted row adds to the protein map only its own form id, which has a colon and no `|`. */
  lemma ConvertedProteinKeys(g: Gaf, row: seq<string>, eco: string, proteins: map<string, string>)
    requires g.Valid() && |row| == |g.fields|
    requires ConvertChecked(g, row, eco, proteins).Converted?
    ensures forall key :: key in ConvertChecked(g, row, eco, proteins).proteins ==>
      key in proteins || (key == row[g.productFormIdIndex] && ':' in key && '|' !in key)
  {
    if g.IsGeneVariant(row) {
      ProteinRewriteRestores(g, row, proteins);
    } else {
      assert ConvertChecked(g, row, eco, proteins).proteins == proteins;
    }
  }
}
