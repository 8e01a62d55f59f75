/**
 * The GPAD + GPI to GAF direction of goa_parser.py. `loadGpi` indexes the
 * GPI rows by `DB:=DB_Object_ID:=Parent_Object_ID` and records, for every
 * `DB:=DB_Object_ID`, its parent ids with a count. `generateGaf` then joins
 * every GPAD row with the GPI rows of its object and writes one GAF row per
 * parent, in the order the parent dictionary is walked.
 *
 * The dictionary walk has no order the program relies on: the loops pick the
 * next parent with `:|` and return the order they used as a ghost witness,
 * and every property below holds whatever that order is.
 */
module Reverse {
  import opened Strings
  import opened Schema
  import opened Eco
  import opened GafModel
  import opened Output
  import Forward

  // ---------------------------------------------------------------- loadGpi

  /**
   * `gpi_map` (a GPI row under `DB:=DB_Object_ID:=Parent_Object_ID`) and
   * `gpad_map_keys` (under `DB:=DB_Object_ID`, each parent id with the number
   * of GPI rows seen for it).
   */
  datatype GpiIndex = GpiIndex(rows: map<string, seq<string>>, parents: map<string, map<string, nat>>)

  /** The two empty dictionaries `generateGaf` hands to `loadGpi`. */
  const EmptyIndex := GpiIndex(map[], map[])

  /** `db + ":=" + object_id`. */
  function ObjectKey(db: string, objectId: string): string
  {
    db + ":=" + objectId
  }

  /** `db_object_key + ":=" + parent_id`. */
  function RowKey(objectKey: string, parentId: string): string
  {
    objectKey + ":=" + parentId
  }

  /** Every line of a csv reader has a first cell (`line[0]` is read before anything else). */
  predicate NonEmptyLines(lines: seq<seq<string>>)
  {
    forall k :: 0 <= k < |lines| ==> |lines[k]| >= 1
  }

  /** A GPI line `loadGpi` keeps: not a comment, nine columns, no required column empty. */
  predicate IndexedGpi(line: seq<string>)
    requires |line| >= 1
  {
    !StartsWith(line[0], "!") && |line| == |GpiFields| &&
    RequiredPresent(GpiFields, RequiredGpiFields, line)
  }

  /** The `gpi_map` key of a nine-column GPI row. */
  function GpiKey(line: seq<string>): string
    requires |line| == |GpiFields|
  {
    RowKey(ObjectKey(line[GpiDbIndex], line[GpiObjectIndex]), line[GpiParentIndex])
  }

  /** The number of GPI rows `gpad_map_keys` records for an object and a parent (0 when absent). */
  function Count(index: GpiIndex, objectKey: string, parentId: string): nat
  {
    if objectKey in index.parents && parentId in index.parents[objectKey]
    then index.parents[objectKey][parentId] else 0
  }

  /** One pass of the `loadGpi` loop. */
  function IndexLine(index: GpiIndex, line: seq<string>): GpiIndex
    requires |line| >= 1
  {
    if !IndexedGpi(line) then index
    else
      var objectKey := ObjectKey(line[GpiDbIndex], line[GpiObjectIndex]);
      var parentId := line[GpiParentIndex];
      var counts := if objectKey in index.parents then index.parents[objectKey] else map[];
      GpiIndex(index.rows[RowKey(objectKey, parentId) := line],
               index.parents[objectKey := counts[parentId := Count(index, objectKey, parentId) + 1]])
  }

  /** The two dictionaries after `loadGpi` has read `lines`. */
  function IndexGpi(lines: seq<seq<string>>): GpiIndex
    requires NonEmptyLines(lines)
    decreases |lines|
  {
    if |lines| == 0 then EmptyIndex
    else IndexLine(IndexGpi(lines[..|lines| - 1]), lines[|lines| - 1])
  }

  /**
   * The shape `generateGaf` relies on: every recorded parent has a GPI row
   * under its key and a count of at least one, every object has a parent,
   * and every stored row is a nine-column row with its required columns.
   */
  predicate IndexWellFormed(index: GpiIndex)
  {
    (forall objectKey | objectKey in index.parents ::
      index.parents[objectKey] != map[] &&
      forall parentId | parentId in index.parents[objectKey] ::
        RowKey(objectKey, parentId) in index.rows && index.parents[objectKey][parentId] >= 1) &&
    (forall key | key in index.rows ::
      |index.rows[key]| == |GpiFields| && RequiredPresent(GpiFields, RequiredGpiFields, index.rows[key]))
  }

  /** `loadGpi`: read the GPI lines into `gpi_map` and `gpad_map_keys`. */
  method LoadGpi(g: Gaf, lines: seq<seq<string>>) returns (index: GpiIndex)
    requires NonEmptyLines(lines)
    ensures index == IndexGpi(lines)
  {
    index := EmptyIndex;
    var i := 0;
    while i < |lines|
      invariant 0 <= i <= |lines|
      invariant index == IndexGpi(lines[..i])
    {
      var line := lines[i];
      assert lines[..i + 1][..i] == lines[..i];
      if !StartsWith(line[0], "!") && |line| == |GpiFields| {
        var missing := g.GpiHasMissingFields(line);
        if missing == 0 {
          var objectKey := ObjectKey(line[GpiDbIndex], line[GpiObjectIndex]);
          var parentId := line[GpiParentIndex];
          var rows := index.rows[RowKey(objectKey, parentId) := line];
          var parents := index.parents;
          if objectKey in parents {
            if parentId in parents[objectKey] {
              parents := parents[objectKey := parents[objectKey][parentId := parents[objectKey][parentId] + 1]];
            } else {
              parents := parents[objectKey := parents[objectKey][parentId := 1]];
            }
          } else {
            parents := parents[objectKey := map[]];
            parents := parents[objectKey := parents[objectKey][parentId := 1]];
          }
          index := GpiIndex(rows, parents);
        }
      }
      i := i + 1;
    }
    assert lines[..i] == lines;
  }

  /** Whatever the GPI file holds, the index `loadGpi` builds has the shape `generateGaf` relies on. */
  lemma {:induction false} LoadedIndexWellFormed(lines: seq<seq<string>>)
    requires NonEmptyLines(lines)
    ensures IndexWellFormed(IndexGpi(lines))
    decreases |lines|
  {
    if |lines| > 0 {
      LoadedIndexWellFormed(lines[..|lines| - 1]);
      IndexLineWellFormed(IndexGpi(lines[..|lines| - 1]), lines[|lines| - 1]);
    }
  }

  /** One pass of the `loadGpi` loop keeps the shape. */
  lemma IndexLineWellFormed(index: GpiIndex, line: seq<string>)
    requires |line| >= 1 && IndexWellFormed(index)
    ensures IndexWellFormed(IndexLine(index, line))
  {
    if IndexedGpi(line) {
      var objectKey := ObjectKey(line[GpiDbIndex], line[GpiObjectIndex]);
      var parentId := line[GpiParentIndex];
      var r := IndexLine(index, line);
      assert parentId in r.parents[objectKey];
      forall k | k in r.parents
        ensures r.parents[k] != map[]
        ensures forall p | p in r.parents[k] :: RowKey(k, p) in r.rows && r.parents[k][p] >= 1
      {
        if k != objectKey {
          assert r.parents[k] == index.parents[k];
        }
      }
    }
  }

  /** Every row in `gpi_map` is one of the GPI lines, kept by the checks, under its own key. */
  lemma {:induction false} RowsAreIndexedLines(lines: seq<seq<string>>)
    requires NonEmptyLines(lines)
    ensures forall key | key in IndexGpi(lines).rows ::
      var row := IndexGpi(lines).rows[key];
      row in lines && IndexedGpi(row) && GpiKey(row) == key
    decreases |lines|
  {
    if |lines| > 0 {
      var front := lines[..|lines| - 1];
      RowsAreIndexedLines(front);
      forall key | key in IndexGpi(front).rows
        ensures IndexGpi(front).rows[key] in lines
      {
        assert IndexGpi(front).rows[key] in front;
      }
    }
  }

  /** A kept GPI line that no later kept line shares a key with is the row `gpi_map` holds for that key. */
  lemma {:induction false} LastLineWins(lines: seq<seq<string>>, j: int)
    requires NonEmptyLines(lines) && 0 <= j < |lines| && IndexedGpi(lines[j])
    requires forall k :: j < k < |lines| && IndexedGpi(lines[k]) ==> GpiKey(lines[k]) != GpiKey(lines[j])
    ensures GpiKey(lines[j]) in IndexGpi(lines).rows
    ensures IndexGpi(lines).rows[GpiKey(lines[j])] == lines[j]
    decreases |lines|
  {
    var n := |lines| - 1;
    if j < n {
      var front := lines[..n];
      assert front[j] == lines[j];
      LastLineWins(front, j);
    }
  }

  /** The kept GPI lines of an object and a parent, counted in file order. */
  function Occurrences(lines: seq<seq<string>>, objectKey: string, parentId: string): nat
    requires NonEmptyLines(lines)
    decreases |lines|
  {
    if |lines| == 0 then 0
    else
      var line := lines[|lines| - 1];
      Occurrences(lines[..|lines| - 1], objectKey, parentId) +
      if IndexedGpi(line) && ObjectKey(line[GpiDbIndex], line[GpiObjectIndex]) == objectKey &&
         line[GpiParentIndex] == parentId then 1 else 0
  }

  /**
   * `gpad_map_keys[object][parent]` is the number of kept GPI lines of that
   * object and parent, and a parent is recorded exactly when there is one.
   */
  lemma {:induction false} IndexCounts(lines: seq<seq<string>>, objectKey: string, parentId: string)
    requires NonEmptyLines(lines)
    ensures Count(IndexGpi(lines), objectKey, parentId) == Occurrences(lines, objectKey, parentId)
    ensures (objectKey in IndexGpi(lines).parents && parentId in IndexGpi(lines).parents[objectKey]) <==>
      Occurrences(lines, objectKey, parentId) > 0
    decreases |lines|
  {
    if |lines| > 0 {
      IndexCounts(lines[..|lines| - 1], objectKey, parentId);
    }
    LoadedIndexWellFormed(lines);
  }

  // ------------------------------------------------------ one GPAD row, one parent

  /** The attributes of the `gaf` object that `generateGaf` reads, after `_init`. */
  datatype JoinLayout = JoinLayout(
    fields: seq<Column>, db: int, objectId: int, taxon: int, evidence: int,
    aspect: int, qual: int, formId: int, extension: int)

  function LayoutOf(g: Gaf): JoinLayout
    reads g
  {
    JoinLayout(g.fields, g.dbIndex, g.objectIndex, g.taxonIndex, g.evidenceIndex,
               g.aspectIndex, g.qualIndex, g.productFormIdIndex, g.annotationExtensionIndex)
  }

  /** The index ranges `_init` guarantees: the six shared columns exist, the two GAF 2.0 ones may be -1. */
  predicate WellFormed(L: JoinLayout)
  {
    0 <= L.db < |L.fields| && 0 <= L.objectId < |L.fields| && 0 <= L.taxon < |L.fields| &&
    0 <= L.evidence < |L.fields| && 0 <= L.aspect < |L.fields| && 0 <= L.qual < |L.fields| &&
    -1 <= L.formId < |L.fields| && -1 <= L.extension < |L.fields|
  }

  /** After `_init(version)` the layout is the fixed one of that version. */
  predicate LayoutFor(L: JoinLayout, version: string)
  {
    L.fields == GafFieldsFor(version) &&
    L.db == 0 && L.objectId == 1 && L.qual == 3 && L.evidence == 6 && L.aspect == 8 && L.taxon == 12 &&
    if Contains(version, "1.") then L.extension == -1 && L.formId == -1
    else L.extension == 15 && L.formId == 16
  }

  lemma ValidLayout(g: Gaf)
    requires g.Valid()
    ensures WellFormed(LayoutOf(g))
  {
  }

  /** A `_init`ed layout seen through `LayoutOf` is the fixed layout of its version. */
  lemma InitialisedJoinLayout(g: Gaf, version: string)
    requires g.Layout(version)
    ensures LayoutFor(LayoutOf(g), version) && WellFormed(LayoutOf(g))
  {
  }

  /** The variables `db`, `object_id` and `object_form_id`, which the parent loop carries from one parent to the next. */
  datatype Carried = Carried(db: string, objectId: string, formId: string)

  /**
   * The start of the loop body for `parent_id`: a non-empty parent id makes
   * `object_form_id` the current `db:object_id` and, when it holds a colon,
   * replaces `db` by its first component and `object_id` by the other
   * components run together.
   */
  function ParentIds(c: Carried, parentId: string): Carried
  {
    if parentId == "" then c
    else
      var parts := Split(parentId, ':');
      var formId := c.db + ":" + c.objectId;
      if |parts| > 1 then Carried(parts[0], Concat(parts[1..]), formId)
      else c.(formId := formId)
  }

  /** The carried variables after the form-id test, which under GAF 2.0 clears a form id equal to the object id. */
  function CarryParent(L: JoinLayout, c: Carried, parentId: string): Carried
  {
    var c1 := ParentIds(c, parentId);
    if 0 <= L.formId < |L.fields| && c1.objectId == c1.formId then c1.(formId := "") else c1
  }

  /** What one parent of a GPAD row yields: a GAF row, no row (GO id without an aspect), or the `KeyError` of `getECO_code`. */
  datatype Joined = Written(gafRow: seq<string>) | NoAspect | EcoMissing(missingKey: string)

  /** The GAF taxon: the GPI taxon, then `|` and the GPAD interacting taxon when there is one. */
  function JoinedTaxon(gpiTaxon: string, gpadTaxon: string): string
  {
    if gpadTaxon != "" then gpiTaxon + "|" + gpadTaxon else gpiTaxon
  }

  /** `"|".join(fields[0:len(fields)-1])` for `fields = relationship.split("|")`: everything before the last bar. */
  function QualifierOf(relationship: string): string
  {
    var parts := Split(relationship, '|');
    Join(parts[..|parts| - 1], "|")
  }

  /** The annotation extension with `|` and the ECO code appended, unless the code already occurs in it. */
  function ExtensionWithEco(extension: string, ecoCode: string): string
  {
    if Contains(extension, ecoCode) then extension else extension + "|" + ecoCode
  }

  /** The GAF row with its identity columns: DB, object id, taxon and, under GAF 2.0, the form id. */
  function IdentityRow(L: JoinLayout, gpadRow: seq<string>, gpiRow: seq<string>, c: Carried): (r: seq<string>)
    requires WellFormed(L) && |gpadRow| == |GpadFields| && |gpiRow| == |GpiFields|
    ensures |r| == |L.fields|
  {
    var n := |L.fields|;
    var r1 := seq(n, _ => "")[L.db := c.db][L.objectId := c.objectId]
                [L.taxon := JoinedTaxon(gpiRow[GpiTaxonIndex], gpadRow[GpadTaxonIndex])];
    if 0 <= L.formId < n then r1[L.formId := c.formId] else r1
  }

  /**
   * The annotation columns set on `row`: the qualifier when the relationship
   * has a bar, the annotation extension (the last column under GAF 1.0, where
   * its index is -1), the evidence code, and the ECO code appended to the
   * extension.
   */
  function AnnotatedRow(L: JoinLayout, gpadRow: seq<string>, row: seq<string>, evidence: string): (r: seq<string>)
    requires WellFormed(L) && |gpadRow| == |GpadFields| && |row| == |L.fields|
    ensures |r| == |L.fields|
  {
    var relationship := gpadRow[GpadRelationshipIndex];
    var r3 := if '|' in relationship then row[L.qual := QualifierOf(relationship)] else row;
    var ae := PyIndex(L.extension, |row|);
    var r4 := r3[ae := gpadRow[GpadAnnotExtensionIndex]][L.evidence := evidence];
    r4[ae := ExtensionWithEco(r4[ae], gpadRow[GpadEvidenceIndex])]
  }

  /** The GAF row before the fill loop: identity and annotation columns, then the aspect. */
  function AssignedRow(L: JoinLayout, gpadRow: seq<string>, gpiRow: seq<string>, c: Carried,
                       evidence: string, aspect: string): (r: seq<string>)
    requires WellFormed(L) && |gpadRow| == |GpadFields| && |gpiRow| == |GpiFields|
    ensures |r| == |L.fields|
  {
    AnnotatedRow(L, gpadRow, IdentityRow(L, gpadRow, gpiRow, c), evidence)[L.aspect := aspect]
  }

  /** The columns the fill loop passes over. */
  predicate Reserved(L: JoinLayout, i: int)
  {
    i == L.db || i == L.objectId || i == L.taxon || i == L.evidence || i == L.aspect ||
    i == L.qual || i == L.formId || i == L.extension
  }

  /** What the fill loop leaves in column `i`: the value already there, else the GPAD column of that name, else the GPI one. */
  function FilledCell(L: JoinLayout, row: seq<string>, i: int, gpadRow: seq<string>, gpiRow: seq<string>): string
    requires 0 <= i < |row| == |L.fields| && |gpadRow| == |GpadFields| && |gpiRow| == |GpiFields|
  {
    var name := L.fields[i];
    if Reserved(L, i) || row[i] != "" then row[i]
    else if name in GpadFields then IndexOfSpec(GpadFields, name); gpadRow[IndexOf(GpadFields, name)]
    else if name in GpiFields then IndexOfSpec(GpiFields, name); gpiRow[IndexOf(GpiFields, name)]
    else row[i]
  }

  /** The row after the fill loop. */
  function FillEmpty(L: JoinLayout, row: seq<string>, gpadRow: seq<string>, gpiRow: seq<string>): (r: seq<string>)
    requires |row| == |L.fields| && |gpadRow| == |GpadFields| && |gpiRow| == |GpiFields|
    ensures |r| == |row|
    ensures forall i :: 0 <= i < |row| ==> r[i] == FilledCell(L, row, i, gpadRow, gpiRow)
  {
    seq(|row|, i requires 0 <= i < |row| => FilledCell(L, row, i, gpadRow, gpiRow))
  }

  /** `getECO_code` on the GPAD row's reference and ECO code: the GAF evidence code, or the key of the `KeyError`. */
  function GpadEvidence(gpadRow: seq<string>, refs: References): Result<string>
    requires |gpadRow| == |GpadFields|
  {
    EcoCode(gpadRow[GpadGorefIndex], gpadRow[GpadEvidenceIndex], refs.collection, refs.ecoGoref2EvidenceMap)
  }

  /**
   * The body of the parent loop after the carried variables are updated,
   * given the answer of `getECO_code`: a `KeyError` ends the run; a GO id
   * missing from the ontology map ends the iteration without a row;
   * otherwise the filled GAF row.
   */
  function JoinRow(L: JoinLayout, gpadRow: seq<string>, gpiRow: seq<string>, c: Carried,
                   evidence: Result<string>, ontology: map<string, string>): (j: Joined)
    requires WellFormed(L) && |gpadRow| == |GpadFields| && |gpiRow| == |GpiFields|
    ensures (j.EcoMissing? <==> evidence.Failure?) && (j.EcoMissing? ==> j.missingKey == evidence.missingKey)
    ensures j.Written? <==> evidence.Success? && gpadRow[GpadGoIdIndex] in ontology
    ensures j.Written? ==> |j.gafRow| == |L.fields|
  {
    match evidence
    case Failure(key) => EcoMissing(key)
    case Success(code) =>
      var goId := gpadRow[GpadGoIdIndex];
      if goId !in ontology then NoAspect
      else Written(FillEmpty(L, AssignedRow(L, gpadRow, gpiRow, c, code, ontology[goId]), gpadRow, gpiRow))
  }

  /** The fill loop: every empty, unreserved column takes the GPAD value of its name, else the GPI value. */
  method FillEmptyColumns(L: JoinLayout, row: seq<string>, gpadRow: seq<string>, gpiRow: seq<string>) returns (filled: seq<string>)
    requires |row| == |L.fields| && |gpadRow| == |GpadFields| && |gpiRow| == |GpiFields|
    ensures filled == FillEmpty(L, row, gpadRow, gpiRow)
  {
    filled := row;
    var i := 0;
    while i < |L.fields|
      invariant 0 <= i <= |L.fields| && |filled| == |row|
      invariant forall k :: 0 <= k < i ==> filled[k] == FilledCell(L, row, k, gpadRow, gpiRow)
      invariant forall k :: i <= k < |row| ==> filled[k] == row[k]
    {
      if i == L.db || i == L.objectId || i == L.taxon || i == L.evidence ||
         i == L.aspect || i == L.qual || i == L.formId ||
         i == L.extension {
      } else if filled[i] == "" {
        if L.fields[i] in GpadFields {
          IndexOfSpec(GpadFields, L.fields[i]);
          filled := filled[i := gpadRow[IndexOf(GpadFields, L.fields[i])]];
        } else if L.fields[i] in GpiFields {
          IndexOfSpec(GpiFields, L.fields[i]);
          filled := filled[i := gpiRow[IndexOf(GpiFields, L.fields[i])]];
        }
      }
      i := i + 1;
    }
  }

  /**
   * The first part of the parent loop body: update the carried variables
   * and start the GAF row with its identity columns.
   */
  method StartRow(L: JoinLayout, gpadRow: seq<string>, gpiRow: seq<string>, c: Carried, parentId: string)
    returns (c': Carried, row: seq<string>)
    requires WellFormed(L) && |gpadRow| == |GpadFields| && |gpiRow| == |GpiFields|
    ensures c' == CarryParent(L, c, parentId)
    ensures row == IdentityRow(L, gpadRow, gpiRow, c')
  {
    var db, objectId, formId := c.db, c.objectId, c.formId;
    if parentId != "" {
      var parts := Split(parentId, ':');
      formId := db + ":" + objectId;
      if |parts| > 1 {
        db := parts[0];
        objectId := Concat(parts[1..]);
      }
    }
    assert Carried(db, objectId, formId) == ParentIds(c, parentId);
    var n := |L.fields|;
    row := seq(n, _ => "");
    row := row[L.db := db][L.objectId := objectId];
    var taxon := gpiRow[GpiTaxonIndex];
    if gpadRow[GpadTaxonIndex] != "" {
      taxon := taxon + "|" + gpadRow[GpadTaxonIndex];
    }
    row := row[L.taxon := taxon];
    if 0 <= L.formId < n {
      if objectId == formId {
        formId := "";
      }
      row := row[L.formId := formId];
    }
    c' := Carried(db, objectId, formId);
  }

  /** The body of the parent loop for one parent: update the carried variables, then build the GAF row. */
  method JoinParent(L: JoinLayout, gpadRow: seq<string>, gpiRow: seq<string>, c: Carried, parentId: string,
                    refs: References) returns (c': Carried, j: Joined)
    requires WellFormed(L) && |gpadRow| == |GpadFields| && |gpiRow| == |GpiFields|
    ensures c' == CarryParent(L, c, parentId)
    ensures j == JoinRow(L, gpadRow, gpiRow, c', GpadEvidence(gpadRow, refs), refs.goOntologyMap)
  {
    var row;
    c', row := StartRow(L, gpadRow, gpiRow, c, parentId);
    ghost var identity := row;
    var n := |L.fields|;
    var relationship := gpadRow[GpadRelationshipIndex];
    if '|' in relationship {
      var parts := Split(relationship, '|');
      row := row[L.qual := Join(parts[..|parts| - 1], "|")];
    }
    var ae := PyIndex(L.extension, n);
    row := row[ae := gpadRow[GpadAnnotExtensionIndex]];
    var ecoCode := gpadRow[GpadEvidenceIndex];
    var evidence := GetEcoCode(gpadRow[GpadGorefIndex], ecoCode, refs.collection, refs.ecoGoref2EvidenceMap);
    if evidence.Failure? {
      return c', EcoMissing(evidence.missingKey);
    }
    row := row[L.evidence := evidence.value];
    if !Contains(row[ae], ecoCode) {
      row := row[ae := row[ae] + "|" + ecoCode];
    }
    var goId := gpadRow[GpadGoIdIndex];
    if goId !in refs.goOntologyMap {
      return c', NoAspect;
    }
    assert row == AnnotatedRow(L, gpadRow, identity, evidence.value);
    row := row[L.aspect := refs.goOntologyMap[goId]];
    var filled := FillEmptyColumns(L, row, gpadRow, gpiRow);
    j := Written(filled);
  }

  // ------------------------------------------------------------- one GPAD row

  /** A GPAD line that reaches the parent loop: not a comment, twelve columns, the required ones filled, a known DB, an object the GPI file has. */
  predicate Joinable(index: GpiIndex, refs: References, line: seq<string>)
    requires |line| >= 1
  {
    !StartsWith(line[0], "!") && |line| == |GpadFields| &&
    RequiredPresent(GpadFields, RequiredGpadFields, line) &&
    line[GpadDbIndex] in refs.goDatabases &&
    ObjectKey(line[GpadDbIndex], line[GpadObjectIndex]) in index.parents
  }

  /** `order` lists every key of `keys` once. */
  predicate Enumerates(order: seq<string>, keys: set<string>)
  {
    Distinct(order) && (forall p | p in order :: p in keys) && (forall p | p in keys :: p in order)
  }

  /** The order in which the parent loop of a GPAD line visits its parents: all of them once, or none when the line is dropped. */
  predicate ParentOrder(index: GpiIndex, refs: References, line: seq<string>, order: seq<string>)
    requires |line| >= 1
  {
    if Joinable(index, refs, line)
    then Enumerates(order, index.parents[ObjectKey(line[GpadDbIndex], line[GpadObjectIndex])].Keys)
    else order == []
  }

  /** The GAF rows written so far, whether a `KeyError` stopped the run, and the carried variables. */
  datatype ParentsState = ParentsState(rows: seq<seq<string>>, halt: Halt, carried: Carried)

  /**
   * One pass of the parent loop: update the carried variables, then write
   * the row, skip, or raise. `evidence` is the answer of `getECO_code`, which
   * depends on the GPAD row alone and so is the same for every parent.
   */
  function ParentStep(L: JoinLayout, gpadRow: seq<string>, objectKey: string, index: GpiIndex,
                      evidence: Result<string>, ontology: map<string, string>,
                      s: ParentsState, parentId: string): ParentsState
    requires WellFormed(L) && |gpadRow| == |GpadFields| && IndexWellFormed(index)
    requires objectKey in index.parents && parentId in index.parents[objectKey]
  {
    var c := CarryParent(L, s.carried, parentId);
    match JoinRow(L, gpadRow, index.rows[RowKey(objectKey, parentId)], c, evidence, ontology)
    case Written(r) => ParentsState(s.rows + [r], s.halt, c)
    case NoAspect => ParentsState(s.rows, s.halt, c)
    case EcoMissing(key) => ParentsState(s.rows, Halted(key), c)
  }

  /** The parent loop of one GPAD row after visiting the parents in `order`, starting from the carried variables `start`. */
  function ParentsRun(L: JoinLayout, gpadRow: seq<string>, objectKey: string, index: GpiIndex,
                      evidence: Result<string>, ontology: map<string, string>,
                      start: Carried, order: seq<string>): ParentsState
    requires WellFormed(L) && |gpadRow| == |GpadFields| && IndexWellFormed(index)
    requires objectKey in index.parents
    requires forall k :: 0 <= k < |order| ==> order[k] in index.parents[objectKey]
    decreases |order|
  {
    if |order| == 0 then ParentsState([], Running, start)
    else
      var prev := ParentsRun(L, gpadRow, objectKey, index, evidence, ontology, start, order[..|order| - 1]);
      if prev.halt.Halted? then prev
      else ParentStep(L, gpadRow, objectKey, index, evidence, ontology, prev, order[|order| - 1])
  }

  /** Visiting one more parent while the loop runs is one more `ParentStep`. */
  lemma ParentsRunAppend(L: JoinLayout, gpadRow: seq<string>, objectKey: string, index: GpiIndex,
                         evidence: Result<string>, ontology: map<string, string>,
                         start: Carried, order: seq<string>, parentId: string)
    requires WellFormed(L) && |gpadRow| == |GpadFields| && IndexWellFormed(index)
    requires objectKey in index.parents && parentId in index.parents[objectKey]
    requires forall k :: 0 <= k < |order| ==> order[k] in index.parents[objectKey]
    requires ParentsRun(L, gpadRow, objectKey, index, evidence, ontology, start, order).halt == Running
    ensures ParentsRun(L, gpadRow, objectKey, index, evidence, ontology, start, order + [parentId]) ==
      ParentStep(L, gpadRow, objectKey, index, evidence, ontology,
                 ParentsRun(L, gpadRow, objectKey, index, evidence, ontology, start, order), parentId)
  {
    assert (order + [parentId])[..|order|] == order;
  }

  /** The GAF rows written for some GPAD rows, and whether a `KeyError` stopped the run. */
  datatype Emitted = Emitted(rows: seq<seq<string>>, halt: Halt)

  /** What `generateGaf` does with one GPAD line, visiting its parents in `order`. */
  function GpadLine(L: JoinLayout, index: GpiIndex, refs: References, line: seq<string>, order: seq<string>): Emitted
    requires WellFormed(L) && IndexWellFormed(index) && |line| >= 1
    requires ParentOrder(index, refs, line, order)
  {
    if !Joinable(index, refs, line) then Emitted([], Running)
    else
      var db, objectId := line[GpadDbIndex], line[GpadObjectIndex];
      var s := ParentsRun(L, line, ObjectKey(db, objectId), index, GpadEvidence(line, refs), refs.goOntologyMap,
                          Carried(db, objectId, ""), order);
      Emitted(s.rows, s.halt)
  }

  /** The GAF file lines of some rows: each row's cells joined by tabs. */
  function TabLines(rows: seq<seq<string>>): (lines: seq<string>)
    ensures |lines| == |rows|
    ensures forall k :: 0 <= k < |rows| ==> lines[k] == Join(rows[k], "\t")
  {
    seq(|rows|, k requires 0 <= k < |rows| => Join(rows[k], "\t"))
  }

  /** The lines of two batches of rows are the lines of the first, then those of the second. */
  lemma TabLinesAppend(a: seq<seq<string>>, b: seq<seq<string>>)
    ensures TabLines(a + b) == TabLines(a) + TabLines(b)
  {
  }

  /** The body of the parent loop for one parent, with the row written to the GAF file. */
  method VisitParent(L: JoinLayout, line: seq<string>, objectKey: string, index: GpiIndex, refs: References,
                     c: Carried, parentId: string, out: LineWriter, ghost s: ParentsState, ghost before: seq<string>)
    returns (c': Carried, halt: Halt)
    requires WellFormed(L) && |line| == |GpadFields| && IndexWellFormed(index)
    requires objectKey in index.parents && parentId in index.parents[objectKey]
    requires s.carried == c && s.halt == Running && out.lines == before + TabLines(s.rows)
    modifies out
    ensures var s' := ParentStep(L, line, objectKey, index, GpadEvidence(line, refs), refs.goOntologyMap, s, parentId);
      c' == s'.carried && halt == s'.halt && out.lines == before + TabLines(s'.rows)
  {
    var j;
    c', j := JoinParent(L, line, index.rows[RowKey(objectKey, parentId)], c, parentId, refs);
    halt := Running;
    match j {
      case Written(r) =>
        out.Write(Join(r, "\t"));
        TabLinesAppend(s.rows, [r]);
      case NoAspect =>
      case EcoMissing(key) =>
        halt := Halted(key);
    }
  }

  /**
   * One GPAD line of `generateGaf`: the validation steps, then the walk over
   * the line's parents, one GAF row written per parent whose GO id has an
   * aspect, until `getECO_code` raises `KeyError`.
   */
  method JoinGpadLine(g: Gaf, L: JoinLayout, line: seq<string>, index: GpiIndex, refs: References, out: LineWriter)
    returns (halt: Halt, ghost order: seq<string>)
    requires WellFormed(L) && IndexWellFormed(index) && |line| >= 1
    modifies out
    ensures ParentOrder(index, refs, line, order)
    ensures var e := GpadLine(L, index, refs, line, order);
      out.lines == old(out.lines) + TabLines(e.rows) && halt == e.halt
  {
    order := [];
    halt := Running;
    if StartsWith(line[0], "!") || |line| != |GpadFields| {
      return;
    }
    var missing := g.GpadHasMissingFields(line);
    if missing != 0 {
      return;
    }
    var db := line[GpadDbIndex];
    if db !in refs.goDatabases {
      return;
    }
    var objectId := line[GpadObjectIndex];
    var objectKey := ObjectKey(db, objectId);
    var formId := "";
    if objectKey !in index.parents {
      return;
    }
    var c := Carried(db, objectId, formId);
    halt, order := WalkParents(L, line, objectKey, index, refs, c, out);
  }

  /** The parent loop of `generateGaf` for one GPAD row: every parent once, in the dictionary's order, until `KeyError`. */
  method WalkParents(L: JoinLayout, line: seq<string>, objectKey: string, index: GpiIndex, refs: References,
                     start: Carried, out: LineWriter) returns (halt: Halt, ghost order: seq<string>)
    requires WellFormed(L) && |line| == |GpadFields| && IndexWellFormed(index) && objectKey in index.parents
    modifies out
    ensures Enumerates(order, index.parents[objectKey].Keys)
    ensures var s := ParentsRun(L, line, objectKey, index, GpadEvidence(line, refs), refs.goOntologyMap, start, order);
      out.lines == old(out.lines) + TabLines(s.rows) && halt == s.halt
  {
    ghost var evidence := GpadEvidence(line, refs);
    order := [];
    halt := Running;
    var remaining := index.parents[objectKey].Keys;
    var c := start;
    ghost var before := out.lines;
    ghost var keys := index.parents[objectKey].Keys;
    ghost var state := ParentsRun(L, line, objectKey, index, evidence, refs.goOntologyMap, start, order);
    while remaining != {} && halt == Running
      invariant Visited(order, remaining, keys)
      invariant state == ParentsRun(L, line, objectKey, index, evidence, refs.goOntologyMap, start, order)
      invariant halt == state.halt && state.carried == c
      invariant out.lines == before + TabLines(state.rows)
      decreases |remaining|
    {
      var parentId :| parentId in remaining;
      VisitedStep(order, remaining, keys, parentId);
      remaining := remaining - {parentId};
      c, halt := VisitParent(L, line, objectKey, index, refs, c, parentId, out, state, before);
      ParentsRunAppend(L, line, objectKey, index, evidence, refs.goOntologyMap, start, order, parentId);
      state := ParentStep(L, line, objectKey, index, evidence, refs.goOntologyMap, state, parentId);
      order := order + [parentId];
    }
    if halt.Halted? {
      ghost var rest := Enumeration(remaining);
      VisitedRest(order, remaining, keys, rest);
      HaltedParentsStay(L, line, objectKey, index, evidence, refs.goOntologyMap, start, order, rest);
      order := order + rest;
    } else {
      VisitedAll(order, keys);
    }
  }

  /** The parents listed in `order` are the keys no longer `remaining`, each once. */
  ghost predicate Visited(order: seq<string>, remaining: set<string>, keys: set<string>)
  {
    remaining <= keys && Distinct(order) &&
    (forall p | p in order :: p in keys && p !in remaining) &&
    (forall p | p in keys && p !in remaining :: p in order)
  }

  /** Taking one more key out of `remaining` and listing it keeps the two apart. */
  lemma VisitedStep(order: seq<string>, remaining: set<string>, keys: set<string>, p: string)
    requires Visited(order, remaining, keys) && p in remaining
    ensures Visited(order + [p], remaining - {p}, keys)
  {
  }

  /** Listing the remaining keys after the visited ones lists every key once. */
  lemma VisitedRest(order: seq<string>, remaining: set<string>, keys: set<string>, rest: seq<string>)
    requires Visited(order, remaining, keys) && Enumerates(rest, remaining)
    ensures Enumerates(order + rest, keys)
    ensures forall k :: 0 <= k < |rest| ==> rest[k] in keys
  {
    forall i, j | 0 <= i < j < |order + rest|
      ensures (order + rest)[i] != (order + rest)[j]
    {
      if j < |order| {
      } else if i < |order| {
        assert (order + rest)[i] in order && (order + rest)[j] in rest;
      } else {
        assert (order + rest)[i] == rest[i - |order|] && (order + rest)[j] == rest[j - |order|];
      }
    }
  }

  /** With nothing remaining, the visited keys are all of them. */
  lemma VisitedAll(order: seq<string>, keys: set<string>)
    requires Visited(order, {}, keys)
    ensures Enumerates(order, keys)
  {
  }

  /** The GAF rows of consecutive GPAD lines, up to and including the first line that stopped the run. */
  function Collect(outputs: seq<Emitted>): Emitted
    decreases |outputs|
  {
    if |outputs| == 0 then Emitted([], Running)
    else
      var prev := Collect(outputs[..|outputs| - 1]);
      var e := outputs[|outputs| - 1];
      if prev.halt.Halted? then prev else Emitted(prev.rows + e.rows, e.halt)
  }

  /** What each GPAD line yields on its own, the parents of line `k` visited in `orders[k]`. */
  function LineOutputs(L: JoinLayout, index: GpiIndex, refs: References, lines: seq<seq<string>>,
                       orders: seq<seq<string>>): (outputs: seq<Emitted>)
    requires WellFormed(L) && IndexWellFormed(index) && NonEmptyLines(lines) && |orders| == |lines|
    requires forall k :: 0 <= k < |lines| ==> ParentOrder(index, refs, lines[k], orders[k])
    ensures |outputs| == |lines|
    ensures forall k :: 0 <= k < |lines| ==> outputs[k] == GpadLine(L, index, refs, lines[k], orders[k])
  {
    seq(|lines|, k requires 0 <= k < |lines| => GpadLine(L, index, refs, lines[k], orders[k]))
  }

  /** The GAF rows `generateGaf` writes for the GPAD lines, and whether a `KeyError` stopped it. */
  function GpadRun(L: JoinLayout, index: GpiIndex, refs: References, lines: seq<seq<string>>,
                   orders: seq<seq<string>>): Emitted
    requires WellFormed(L) && IndexWellFormed(index) && NonEmptyLines(lines) && |orders| == |lines|
    requires forall k :: 0 <= k < |lines| ==> ParentOrder(index, refs, lines[k], orders[k])
  {
    Collect(LineOutputs(L, index, refs, lines, orders))
  }

  /** Output `k`, named apart so that only the lemmas below look at what each line yields. */
  ghost function Nth(outputs: seq<Emitted>, k: int): Emitted
    requires 0 <= k < |outputs|
  {
    outputs[k]
  }

  /** `outputs[k]` is what GPAD line `k` yields, its parents visited in `orders[k]`. */
  ghost predicate Yields(L: JoinLayout, index: GpiIndex, refs: References, lines: seq<seq<string>>,
                         orders: seq<seq<string>>, outputs: seq<Emitted>)
    requires WellFormed(L) && IndexWellFormed(index) && NonEmptyLines(lines)
  {
    |orders| == |lines| && |outputs| == |lines| &&
    forall k {:trigger Nth(outputs, k)} :: 0 <= k < |lines| ==>
      ParentOrder(index, refs, lines[k], orders[k]) && Nth(outputs, k) == GpadLine(L, index, refs, lines[k], orders[k])
  }

  /** One more line and what it yields extend the outputs. */
  lemma YieldsAppend(L: JoinLayout, index: GpiIndex, refs: References, lines: seq<seq<string>>,
                     orders: seq<seq<string>>, outputs: seq<Emitted>, line: seq<string>, order: seq<string>, e: Emitted)
    requires WellFormed(L) && IndexWellFormed(index) && NonEmptyLines(lines) && |line| >= 1
    requires Yields(L, index, refs, lines, orders, outputs) && Yields(L, index, refs, [line], [order], [e])
    ensures Yields(L, index, refs, lines + [line], orders + [order], outputs + [e])
  {
    assert [e][0] == e;
    forall k | 0 <= k < |lines| + 1
      ensures ParentOrder(index, refs, (lines + [line])[k], (orders + [order])[k])
      ensures Nth(outputs + [e], k) == GpadLine(L, index, refs, (lines + [line])[k], (orders + [order])[k])
    {
      if k < |lines| {
        assert (lines + [line])[k] == lines[k] && (orders + [order])[k] == orders[k] && (outputs + [e])[k] == outputs[k];
        ghost var o := Nth(outputs, k);
        assert ParentOrder(index, refs, lines[k], orders[k]) && Nth(outputs, k) == GpadLine(L, index, refs, lines[k], orders[k]);
      } else {
        assert (lines + [line])[k] == line && (orders + [order])[k] == order && (outputs + [e])[k] == e;
        ghost var o := Nth([e], 0);
        assert ParentOrder(index, refs, [line][0], [order][0]) && Nth([e], 0) == GpadLine(L, index, refs, [line][0], [order][0]);
      }
    }
  }

  /** The run is the collection of the outputs the lines yield. */
  lemma GpadRunCollects(L: JoinLayout, index: GpiIndex, refs: References, lines: seq<seq<string>>,
                        orders: seq<seq<string>>, outputs: seq<Emitted>)
    requires WellFormed(L) && IndexWellFormed(index) && NonEmptyLines(lines)
    requires Yields(L, index, refs, lines, orders, outputs)
    ensures |orders| == |lines| && forall k :: 0 <= k < |lines| ==> ParentOrder(index, refs, lines[k], orders[k])
    ensures GpadRun(L, index, refs, lines, orders) == Collect(outputs)
  {
    forall k | 0 <= k < |lines|
      ensures ParentOrder(index, refs, lines[k], orders[k])
    {
      ghost var o := Nth(outputs, k);
      assert ParentOrder(index, refs, lines[k], orders[k]) && Nth(outputs, k) == GpadLine(L, index, refs, lines[k], orders[k]);
    }
    assert LineOutputs(L, index, refs, lines, orders) == outputs by {
      forall k | 0 <= k < |lines|
        ensures LineOutputs(L, index, refs, lines, orders)[k] == outputs[k]
      {
        ghost var o := Nth(outputs, k);
        assert ParentOrder(index, refs, lines[k], orders[k]) && Nth(outputs, k) == GpadLine(L, index, refs, lines[k], orders[k]);
      }
    }
  }

  /** `generateGaf`'s work on one GPAD line, with what the line yields. */
  method EmitGpadLine(g: Gaf, L: JoinLayout, line: seq<string>, index: GpiIndex, refs: References, out: LineWriter)
    returns (halt: Halt, ghost order: seq<string>, ghost e: Emitted)
    requires WellFormed(L) && IndexWellFormed(index) && |line| >= 1
    modifies out
    ensures Yields(L, index, refs, [line], [order], [e])
    ensures out.lines == old(out.lines) + TabLines(e.rows) && halt == e.halt
  {
    halt, order := JoinGpadLine(g, L, line, index, refs, out);
    e := GpadLine(L, index, refs, line, order);
    assert [e][0] == e && [line][0] == line && [order][0] == order;
  }

  /** One more output while the run goes on adds its rows and takes its halt. */
  lemma CollectAppend(outputs: seq<Emitted>, e: Emitted)
    requires Collect(outputs).halt == Running
    ensures Collect(outputs + [e]) == Emitted(Collect(outputs).rows + e.rows, e.halt)
  {
    assert (outputs + [e])[..|outputs|] == outputs;
  }

  /** One more GPAD line read while the run goes on: what it yields is collected and its rows written. */
  lemma RunStep(L: JoinLayout, index: GpiIndex, refs: References, lines: seq<seq<string>>, i: nat,
                orders: seq<seq<string>>, outputs: seq<Emitted>, order: seq<string>, e: Emitted)
    requires WellFormed(L) && IndexWellFormed(index) && NonEmptyLines(lines) && i < |lines|
    requires Yields(L, index, refs, lines[..i], orders, outputs)
    requires Yields(L, index, refs, [lines[i]], [order], [e])
    requires Collect(outputs).halt == Running
    ensures Yields(L, index, refs, lines[..i + 1], orders + [order], outputs + [e])
    ensures Collect(outputs + [e]).halt == e.halt
    ensures TabLines(Collect(outputs + [e]).rows) == TabLines(Collect(outputs).rows) + TabLines(e.rows)
  {
    YieldsAppend(L, index, refs, lines[..i], orders, outputs, lines[i], order, e);
    assert lines[..i + 1] == lines[..i] + [lines[i]];
    CollectAppend(outputs, e);
    TabLinesAppend(Collect(outputs).rows, e.rows);
  }

  /**
   * The GPAD loop of `generateGaf`: every line in file order until
   * `getECO_code` raises `KeyError`, which ends the run (the lines after it
   * are not read, so `orders` is shorter than `lines` exactly then).
   */
  method GenerateGafRows(g: Gaf, L: JoinLayout, lines: seq<seq<string>>, index: GpiIndex, refs: References,
                         out: LineWriter)
    returns (halt: Halt, ghost orders: seq<seq<string>>)
    requires WellFormed(L) && IndexWellFormed(index) && NonEmptyLines(lines)
    modifies out
    ensures |orders| <= |lines| && (|orders| < |lines| ==> halt.Halted?)
    ensures forall k :: 0 <= k < |orders| ==> ParentOrder(index, refs, lines[k], orders[k])
    ensures var e := GpadRun(L, index, refs, lines[..|orders|], orders);
      out.lines == old(out.lines) + TabLines(e.rows) && halt == e.halt
  {
    ghost var before := out.lines;
    orders := [];
    halt := Running;
    ghost var outputs: seq<Emitted> := [];
    var i := 0;
    while i < |lines| && halt == Running
      invariant 0 <= i <= |lines| && |orders| == i
      invariant Yields(L, index, refs, lines[..i], orders, outputs)
      invariant out.lines == before + TabLines(Collect(outputs).rows) && halt == Collect(outputs).halt
    {
      ghost var order, e;
      halt, order, e := EmitGpadLine(g, L, lines[i], index, refs, out);
      RunStep(L, index, refs, lines, i, orders, outputs, order, e);
      outputs := outputs + [e];
      orders := orders + [order];
      i := i + 1;
    }
    GpadRunCollects(L, index, refs, lines[..i], orders, outputs);
  }

  /** The layout `_init(version)` leaves. */
  function GafLayout(version: string): (L: JoinLayout)
    ensures LayoutFor(L, version) && WellFormed(L)
  {
    var gaf1 := Contains(version, "1.");
    JoinLayout(GafFieldsFor(version), 0, 1, 12, 6, 8, 3, if gaf1 then -1 else 16, if gaf1 then -1 else 15)
  }

  /** `LayoutFor` pins the layout down: it is `GafLayout`. */
  lemma LayoutForUnique(L: JoinLayout, version: string)
    requires LayoutFor(L, version)
    ensures L == GafLayout(version)
  {
  }

  /** The set-up of `generateGaf`: a fresh `gaf` initialised for the version, and the GPI file indexed. */
  method PrepareGaf(version: string, gpiLines: seq<seq<string>>) returns (g: Gaf, L: JoinLayout, index: GpiIndex)
    requires NonEmptyLines(gpiLines)
    ensures fresh(g)
    ensures L == GafLayout(version) && WellFormed(L)
    ensures index == IndexGpi(gpiLines) && IndexWellFormed(index)
  {
    g := new Gaf();
    g.Init(version);
    InitialisedLayout(g, version);
    InitialisedJoinLayout(g, version);
    L := LayoutOf(g);
    LayoutForUnique(L, version);
    index := LoadGpi(g, gpiLines);
    LoadedIndexWellFormed(gpiLines);
  }

  /**
   * `generateGaf` after its header: a fresh `gaf` set up for the version,
   * the GPI file indexed, then the GPAD loop writing tab-joined GAF rows.
   */
  method GenerateGaf(version: string, gpiLines: seq<seq<string>>, gpadLines: seq<seq<string>>, refs: References,
                     out: LineWriter)
    returns (halt: Halt, ghost orders: seq<seq<string>>)
    requires NonEmptyLines(gpiLines) && NonEmptyLines(gpadLines)
    modifies out
    ensures |orders| <= |gpadLines| && (|orders| < |gpadLines| ==> halt.Halted?)
    ensures forall k :: 0 <= k < |orders| ==> ParentOrder(IndexGpi(gpiLines), refs, gpadLines[k], orders[k])
    ensures IndexWellFormed(IndexGpi(gpiLines)) &&
      var e := GpadRun(GafLayout(version), IndexGpi(gpiLines), refs, gpadLines[..|orders|], orders);
      out.lines == old(out.lines) + TabLines(e.rows) && halt == e.halt
  {
    var g, L, index := PrepareGaf(version, gpiLines);
    halt, orders := GenerateGafRows(g, L, gpadLines, index, refs, out);
  }

  /** Some listing of the keys of a set, each once. */
  ghost function Enumeration(keys: set<string>): (order: seq<string>)
    ensures Enumerates(order, keys)
    decreases |keys|
  {
    if keys == {} then []
    else
      var p :| p in keys;
      var rest := Enumeration(keys - {p});
      assert forall q :: q in [p] + rest <==> q in keys;
      [p] + rest
  }

  /** Once `getECO_code` has raised, the parents after it change nothing: the loop is left. */
  lemma {:induction false} HaltedParentsStay(L: JoinLayout, gpadRow: seq<string>, objectKey: string, index: GpiIndex,
                                            evidence: Result<string>, ontology: map<string, string>,
                                            start: Carried, order: seq<string>, rest: seq<string>)
    requires WellFormed(L) && |gpadRow| == |GpadFields| && IndexWellFormed(index)
    requires objectKey in index.parents
    requires forall k :: 0 <= k < |order| ==> order[k] in index.parents[objectKey]
    requires forall k :: 0 <= k < |rest| ==> rest[k] in index.parents[objectKey]
    requires ParentsRun(L, gpadRow, objectKey, index, evidence, ontology, start, order).halt.Halted?
    ensures ParentsRun(L, gpadRow, objectKey, index, evidence, ontology, start, order + rest) ==
            ParentsRun(L, gpadRow, objectKey, index, evidence, ontology, start, order)
    decreases |rest|
  {
    if |rest| > 0 {
      var front := rest[..|rest| - 1];
      HaltedParentsStay(L, gpadRow, objectKey, index, evidence, ontology, start, order, front);
      assert (order + rest)[..|order + rest| - 1] == order + front;
    } else {
      assert order + rest == order;
    }
  }
}
