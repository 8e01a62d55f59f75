/**
 * What `generateGaf` writes, column by column, and how its columns undo
 * what `gaf2gpad` puts into GPAD and GPI files: the relationship back into
 * the qualifier, the two taxa back into one, the ECO code out of the
 * annotation extension, the parent id back into DB and object id.
 */
module ReverseProperties {
  import opened Strings
  import opened Schema
  import opened Eco
  import opened GafModel
  import opened Reverse
  import Forward

  // ------------------------------------------------------- the columns of a row

  /** The ECO code is a required GPAD column, so the extension it is added to is never empty. */
  lemma ExtensionWithEcoNonEmpty(extension: string, ecoCode: string)
    requires ecoCode != ""
    ensures ExtensionWithEco(extension, ecoCode) != ""
  {
    if Contains(extension, ecoCode) {
      ContainsLength(extension, ecoCode);
    }
  }

  /**
   * The row before the fill loop under the layout of `_init(version)`:
   * identity, qualifier, evidence, aspect, taxon and extension columns set,
   * every other column still empty. Under GAF 1.0 the extension index -1
   * lands on the last column, Assigned_By.
   */
  lemma AssignedCells(L: JoinLayout, version: string, gpadRow: seq<string>, gpiRow: seq<string>, c: Carried,
                      evidence: string, aspect: string)
    requires LayoutFor(L, version) && WellFormed(L) && |gpadRow| == |GpadFields| && |gpiRow| == |GpiFields|
    ensures var r := AssignedRow(L, gpadRow, gpiRow, c, evidence, aspect);
      var rel := gpadRow[GpadRelationshipIndex];
      r[0] == c.db && r[1] == c.objectId && r[2] == "" &&
      r[3] == (if '|' in rel then QualifierOf(rel) else "") &&
      r[4] == "" && r[5] == "" && r[6] == evidence && r[7] == "" && r[8] == aspect &&
      r[9] == "" && r[10] == "" && r[11] == "" &&
      r[12] == JoinedTaxon(gpiRow[GpiTaxonIndex], gpadRow[GpadTaxonIndex]) && r[13] == "" &&
      var ext := ExtensionWithEco(gpadRow[GpadAnnotExtensionIndex], gpadRow[GpadEvidenceIndex]);
      if |L.fields| == 15 then r[14] == ext
      else r[14] == "" && r[15] == ext && r[16] == c.formId
  {
  }

  /** The fill loop on one empty, unreserved column: the GPAD column of its name, else the GPI one. */
  lemma FillCell(L: JoinLayout, row: seq<string>, gpadRow: seq<string>, gpiRow: seq<string>, i: int)
    requires 0 <= i < |row| == |L.fields| && |gpadRow| == |GpadFields| && |gpiRow| == |GpiFields|
    requires !Reserved(L, i) && row[i] == ""
    ensures var k, m := IndexOf(GpadFields, L.fields[i]), IndexOf(GpiFields, L.fields[i]);
      (k >= 0 ==> FillEmpty(L, row, gpadRow, gpiRow)[i] == gpadRow[k]) &&
      (k < 0 && m >= 0 ==> FillEmpty(L, row, gpadRow, gpiRow)[i] == gpiRow[m])
  {
    IndexOfSpec(GpadFields, L.fields[i]);
    IndexOfSpec(GpiFields, L.fields[i]);
  }

  /**
   * The fill loop on a row whose unreserved columns are still empty (the
   * last one under GAF 1.0 aside): the GPI columns symbol, name, synonym and
   * type, the GPAD columns GO id, reference, with, date and, under GAF 2.0,
   * Assigned_By; every other column as it was.
   */
  lemma FilledCells(L: JoinLayout, version: string, row: seq<string>, gpadRow: seq<string>, gpiRow: seq<string>)
    requires LayoutFor(L, version) && WellFormed(L) && |row| == |L.fields|
    requires |gpadRow| == |GpadFields| && |gpiRow| == |GpiFields|
    requires row[2] == "" && row[4] == "" && row[5] == "" && row[7] == ""
    requires row[9] == "" && row[10] == "" && row[11] == "" && row[13] == ""
    requires if |L.fields| == 15 then row[14] != "" else row[14] == ""
    ensures var r := FillEmpty(L, row, gpadRow, gpiRow);
      r[2] == gpiRow[GpiObjectSymbolIndex] && r[4] == gpadRow[GpadGoIdIndex] &&
      r[5] == gpadRow[GpadGorefIndex] && r[7] == gpadRow[6] &&
      r[9] == gpiRow[GpiObjectNameIndex] && r[10] == gpiRow[GpiObjectSynonymIndex] &&
      r[11] == gpiRow[GpiObjectTypeIndex] && r[13] == gpadRow[8] &&
      r[14] == (if |L.fields| == 15 then row[14] else gpadRow[9]) &&
      forall i :: 0 <= i < |row| && Reserved(L, i) ==> r[i] == row[i]
  {
    GafColumnSources();
    GafFieldsForShape(version);
    assert L.fields[..15] == Gaf1Fields;
    Gaf1Prefix(L.fields);
    FillCell(L, row, gpadRow, gpiRow, 2);
    FillCell(L, row, gpadRow, gpiRow, 4);
    FillCell(L, row, gpadRow, gpiRow, 5);
    FillCell(L, row, gpadRow, gpiRow, 7);
    FillCell(L, row, gpadRow, gpiRow, 9);
    FillCell(L, row, gpadRow, gpiRow, 10);
    FillCell(L, row, gpadRow, gpiRow, 11);
    FillCell(L, row, gpadRow, gpiRow, 13);
    if |L.fields| != 15 {
      FillCell(L, row, gpadRow, gpiRow, 14);
    }
  }

  /**
   * A GPAD row that reaches the parent loop and whose GO id has an aspect
   * gives a GAF row with: the carried DB and object id, the GPI symbol,
   * the qualifiers before the relation, the GO id, reference, evidence and
   * with columns, the aspect, the GPI name, synonym and type, both taxa,
   * the date; then under GAF 2.0 Assigned_By, the extension with the ECO
   * code and the form id. Under GAF 1.0 the last column holds the extension
   * with the ECO code instead of Assigned_By, which is lost.
   */
  lemma JoinedColumns(L: JoinLayout, version: string, gpadRow: seq<string>, gpiRow: seq<string>, c: Carried,
                      code: string, ontology: map<string, string>)
    requires LayoutFor(L, version) && WellFormed(L) && |gpadRow| == |GpadFields| && |gpiRow| == |GpiFields|
    requires RequiredPresent(GpadFields, RequiredGpadFields, gpadRow)
    requires gpadRow[GpadGoIdIndex] in ontology
    ensures var j := JoinRow(L, gpadRow, gpiRow, c, Success(code), ontology);
      var rel := gpadRow[GpadRelationshipIndex];
      j.Written? && var r := j.gafRow;
      r[0] == c.db && r[1] == c.objectId && r[2] == gpiRow[GpiObjectSymbolIndex] &&
      r[3] == (if '|' in rel then QualifierOf(rel) else "") &&
      r[4] == gpadRow[GpadGoIdIndex] && r[5] == gpadRow[GpadGorefIndex] && r[6] == code &&
      r[7] == gpadRow[6] && r[8] == ontology[gpadRow[GpadGoIdIndex]] &&
      r[9] == gpiRow[GpiObjectNameIndex] && r[10] == gpiRow[GpiObjectSynonymIndex] &&
      r[11] == gpiRow[GpiObjectTypeIndex] &&
      r[12] == JoinedTaxon(gpiRow[GpiTaxonIndex], gpadRow[GpadTaxonIndex]) && r[13] == gpadRow[8] &&
      var ext := ExtensionWithEco(gpadRow[GpadAnnotExtensionIndex], gpadRow[GpadEvidenceIndex]);
      if |L.fields| == 15 then |r| == 15 && r[14] == ext
      else |r| == 17 && r[14] == gpadRow[9] && r[15] == ext && r[16] == c.formId
  {
    var goId := gpadRow[GpadGoIdIndex];
    var row := AssignedRow(L, gpadRow, gpiRow, c, code, ontology[goId]);
    AssignedCells(L, version, gpadRow, gpiRow, c, code, ontology[goId]);
    assert GpadFields[5] in RequiredGpadFields;
    ExtensionWithEcoNonEmpty(gpadRow[GpadAnnotExtensionIndex], gpadRow[GpadEvidenceIndex]);
    FilledCells(L, version, row, gpadRow, gpiRow);
  }

  // ------------------------------------------------ undoing the forward converter

  /**
   * The GAF qualifier column rebuilt from a relationship `getGPAD_relationship`
   * produced: exactly the qualifiers it kept, joined with `|` ("" when it
   * kept none, since the relationship then holds no bar).
   */
  lemma QualifierRoundTrip(g: Gaf, row: seq<string>)
    requires g.Valid() && |row| == |g.fields|
    requires g.GetGpadRelationship(row) != ""
    ensures var rel := g.GetGpadRelationship(row);
      (if '|' in rel then QualifierOf(rel) else "") ==
        Join(KeepPresent(QualifierOrder, Split(Lower(row[g.qualIndex]), '|')), "|")
  {
    var rel := g.GetGpadRelationship(row);
    var kept := KeepPresent(QualifierOrder, Split(Lower(row[g.qualIndex]), '|'));
    QualifierOfParts(rel, kept, Aspect2Rln[AspectKey(row[g.aspectIndex])]);
  }

  /** A relationship that splits into qualifiers and a final relation gives back those qualifiers. */
  lemma QualifierOfParts(rel: string, kept: seq<string>, last: string)
    requires Split(rel, '|') == kept + [last]
    ensures (if '|' in rel then QualifierOf(rel) else "") == Join(kept, "|")
  {
    var parts := Split(rel, '|');
    assert parts[..|parts| - 1] == kept;
    if '|' !in rel {
      SplitNoSeparator(rel, '|');
    }
  }

  /** The GAF taxon a taxon comes back as, after `writeGP_row` split it into the GPI and GPAD taxa. */
  function TaxonRoundTrip(taxon: string): string
  {
    JoinedTaxon(Forward.ProjectedTaxon(taxon, false), Forward.ProjectedTaxon(taxon, true))
  }

  /** A taxon with a bar comes back as its first component, then `|` and the rest without bars when that is non-empty. */
  lemma TaxonWithBar(taxon: string)
    requires '|' in taxon
    ensures var k := IndexOf(taxon, '|');
      0 <= k < |taxon| && taxon[k] == '|' &&
      TaxonRoundTrip(taxon) == JoinedTaxon(taxon[..k], Remove(taxon[k + 1..], '|'))
  {
    IndexOfSpec(taxon, '|');
  }

  /** A string is the part before a position, the character there and the part after it. */
  lemma Around(s: string, k: int)
    requires 0 <= k < |s|
    ensures s == s[..k] + [s[k]] + s[k + 1..]
  {
  }

  /**
   * The taxon survives the trip through GPI and GPAD exactly when it has no
   * bar, or one bar with an interacting taxon after it: a second bar is
   * dropped by `"".join`, and an empty interacting taxon loses its bar.
   */
  lemma TaxonRoundTripExact(taxon: string)
    ensures TaxonRoundTrip(taxon) == taxon <==>
      '|' !in taxon || (|Split(taxon, '|')| == 2 && Split(taxon, '|')[1] != "")
  {
    if '|' in taxon {
      TaxonWithBar(taxon);
      SplitAtFirst(taxon, '|');
      var k := IndexOf(taxon, '|');
      var head, tail := taxon[..k], taxon[k + 1..];
      var r := Remove(tail, '|');
      RemoveLength(tail, '|');
      assert |taxon| == |head| + 1 + |tail|;
      if '|' in tail {
        SplitHasSeparator(tail, '|');
        assert |Split(taxon, '|')| > 2;
        assert |TaxonRoundTrip(taxon)| < |taxon|;
      } else {
        SplitNoSeparator(tail, '|');
        assert Split(taxon, '|') == [head, tail];
        assert head + "|" + tail == taxon by {
          Around(taxon, k);
          assert [taxon[k]] == "|";
        }
        if tail == "" {
          assert |TaxonRoundTrip(taxon)| < |taxon|;
        }
      }
    }
  }

  /** A taxon and an interacting taxon, each without a bar, come back as they were. */
  lemma TaxonPairRoundTrip(taxon: string, interacting: string)
    requires '|' !in taxon && '|' !in interacting && interacting != ""
    ensures TaxonRoundTrip(taxon + "|" + interacting) == taxon + "|" + interacting
  {
    var t := taxon + "|" + interacting;
    SplitCons(taxon, '|', interacting);
    SplitNoSeparator(interacting, '|');
    SplitNoSeparator(taxon, '|');
    TaxonRoundTripExact(t);
  }

  /**
   * The annotation extension `gaf2gpad` wrote already holds the ECO code,
   * so `generateGaf` leaves it as it is: the code stays in the extension
   * and the original extension is not restored.
   */
  lemma ExtensionKeepsEco(extension: string, ecoCode: string)
    ensures ExtensionWithEco(Forward.WithEco(extension, ecoCode), ecoCode) == Forward.WithEco(extension, ecoCode)
  {
    if extension != "" {
      assert Forward.WithEco(extension, ecoCode) == (extension + "|") + ecoCode;
      ContainsSuffix(extension + "|", ecoCode);
    } else {
      ContainsSuffix("", ecoCode);
    }
  }

  /**
   * A parent id `a:b` with no colon in `a` makes `a` the DB and `b` without
   * its colons the object id; the form id becomes the DB and object id the
   * loop carried in.
   */
  lemma ParentIdSplit(c: Carried, a: string, b: string)
    requires ':' !in a
    ensures ParentIds(c, a + ":" + b) == Carried(a, Remove(b, ':'), c.db + ":" + c.objectId)
  {
    SplitCons(a, ':', b);
    SplitNoSeparator(a, ':');
    ConcatSplit(b, ':');
  }

  /** The parent id `getParent_gp_id` builds from a DB and an object id without colons comes back as that pair. */
  lemma ParentIdRoundTrip(c: Carried, db: string, objectId: string)
    requires ':' !in db && ':' !in objectId
    ensures ParentIds(c, db + ":" + objectId) == Carried(db, objectId, c.db + ":" + c.objectId)
  {
    ParentIdSplit(c, db, objectId);
    RemoveLength(objectId, ':');
  }

  /**
   * A parent id with three parts keeps only its first colon's split: for
   * "MGI:MGI:87853" the DB is "MGI" and the object id "MGI87853".
   */
  lemma ThreePartParentId(c: Carried, a: string, b: string, d: string)
    requires ':' !in a && ':' !in b && ':' !in d
    ensures ParentIds(c, a + ":" + b + ":" + d) == Carried(a, b + d, c.db + ":" + c.objectId)
  {
    var rest := b + ":" + d;
    assert a + ":" + b + ":" + d == a + ":" + rest;
    assert Remove(rest, ':') == b + d by {
      RemoveAppend(b, ":", d, ':');
      RemoveLength(b, ':');
      RemoveLength(d, ':');
      assert Remove(":", ':') == "";
    }
    ParentIdSplit(c, a, rest);
  }

  /** `Remove` works piece by piece. */
  lemma {:induction false} RemoveAppend(a: string, b: string, d: string, c: char)
    ensures Remove(a + b + d, c) == Remove(a, c) + Remove(b, c) + Remove(d, c)
    decreases |a|
  {
    if |a| == 0 {
      assert a + b + d == b + d;
      RemoveConcat(b, d, c);
    } else {
      assert (a + b + d)[1..] == a[1..] + b + d;
      RemoveAppend(a[1..], b, d, c);
    }
  }

  lemma {:induction false} RemoveConcat(a: string, b: string, c: char)
    ensures Remove(a + b, c) == Remove(a, c) + Remove(b, c)
    decreases |a|
  {
    if |a| == 0 {
      assert a + b == b;
    } else {
      assert (a + b)[1..] == a[1..] + b;
      RemoveConcat(a[1..], b, c);
    }
  }

  /**
   * Under GAF 2.0, for a GPAD object with two parents `a1:b1` then `a2:b2`
   * (no colon in `a1`, `a2`): the first row's form id is the GPAD object,
   * but the second row's is built from the first parent's DB and object id,
   * which the loop carries over.
   */
  lemma CarriedFormIds(L: JoinLayout, db: string, objectId: string, a1: string, b1: string, a2: string, b2: string)
    requires 0 <= L.formId < |L.fields|
    requires ':' !in a1 && ':' !in a2
    ensures var first := CarryParent(L, Carried(db, objectId, ""), a1 + ":" + b1);
      var second := CarryParent(L, first, a2 + ":" + b2);
      first == Carried(a1, Remove(b1, ':'), db + ":" + objectId) &&
      second == Carried(a2, Remove(b2, ':'), a1 + ":" + Remove(b1, ':'))
  {
    var c0 := Carried(db, objectId, "");
    ParentIdSplit(c0, a1, b1);
    var first := ParentIds(c0, a1 + ":" + b1);
    assert first.formId == db + ":" + objectId;
    assert ':' in first.formId by { assert first.formId[|db|] == ':'; }
    assert first.objectId != first.formId;
    ParentIdSplit(first, a2, b2);
    var second := ParentIds(first, a2 + ":" + b2);
    assert second.formId[|a1|] == ':';
    assert second.objectId != second.formId;
  }

  // ------------------------------------------------------------ rows per GPAD line

  /**
   * The parent loop of one GPAD row: every row it writes has one cell per
   * GAF column; a `KeyError` from `getECO_code` is raised at the first
   * parent, before any row is written; otherwise the loop writes one row per
   * parent when the GO id has an aspect and none when it has not.
   */
  lemma {:induction false} ParentsRunShape(L: JoinLayout, gpadRow: seq<string>, objectKey: string, index: GpiIndex,
                                           evidence: Result<string>, ontology: map<string, string>,
                                           start: Carried, order: seq<string>)
    requires WellFormed(L) && |gpadRow| == |GpadFields| && IndexWellFormed(index)
    requires objectKey in index.parents
    requires forall k :: 0 <= k < |order| ==> order[k] in index.parents[objectKey]
    ensures var s := ParentsRun(L, gpadRow, objectKey, index, evidence, ontology, start, order);
      (forall k :: 0 <= k < |s.rows| ==> |s.rows[k]| == |L.fields|) &&
      (evidence.Failure? ==> s.rows == [] && s.halt == if |order| == 0 then Running else Halted(evidence.missingKey)) &&
      (evidence.Success? ==>
        s.halt == Running && |s.rows| == if gpadRow[GpadGoIdIndex] in ontology then |order| else 0)
    decreases |order|
  {
    if |order| > 0 {
      ParentsRunShape(L, gpadRow, objectKey, index, evidence, ontology, start, order[..|order| - 1]);
    }
  }

  /** A list of distinct elements is as long as the set of its elements. */
  lemma {:induction false} DistinctSize(order: seq<string>, keys: set<string>)
    requires Enumerates(order, keys)
    ensures |order| == |keys|
    decreases |order|
  {
    if |order| > 0 {
      var last := order[|order| - 1];
      var front := order[..|order| - 1];
      forall p | p in keys - {last}
        ensures p in front
      {
        assert p in order;
        var i :| 0 <= i < |order| && order[i] == p;
        assert i != |order| - 1;
        assert front[i] == p;
      }
      DistinctSize(front, keys - {last});
    } else {
      assert forall p :: p !in keys;
      assert keys == {};
    }
  }

  /**
   * What `generateGaf` does with one GPAD line: a line that does not reach
   * the parent loop writes nothing; one whose ECO lookup raises `KeyError`
   * writes nothing and stops the run (the object has at least one parent);
   * any other writes one GAF row per distinct parent of the object when its
   * GO id has an aspect, and none when it has not.
   */
  lemma GpadLineOutcome(L: JoinLayout, index: GpiIndex, refs: References, line: seq<string>, order: seq<string>)
    requires WellFormed(L) && IndexWellFormed(index) && |line| >= 1
    requires ParentOrder(index, refs, line, order)
    ensures var e := GpadLine(L, index, refs, line, order);
      (forall k :: 0 <= k < |e.rows| ==> |e.rows[k]| == |L.fields|) &&
      (!Joinable(index, refs, line) ==> e == Emitted([], Running)) &&
      (Joinable(index, refs, line) ==>
        var parents := index.parents[ObjectKey(line[GpadDbIndex], line[GpadObjectIndex])];
        var evidence := GpadEvidence(line, refs);
        (evidence.Failure? ==> e == Emitted([], Halted(evidence.missingKey))) &&
        (evidence.Success? ==>
          e.halt == Running && |e.rows| == if line[GpadGoIdIndex] in refs.goOntologyMap then |parents| else 0))
  {
    if Joinable(index, refs, line) {
      var objectKey := ObjectKey(line[GpadDbIndex], line[GpadObjectIndex]);
      var parents := index.parents[objectKey];
      var evidence := GpadEvidence(line, refs);
      ParentsRunShape(L, line, objectKey, index, evidence, refs.goOntologyMap,
                      Carried(line[GpadDbIndex], line[GpadObjectIndex], ""), order);
      DistinctSize(order, parents.Keys);
      assert parents != map[];
      assert |parents| == |parents.Keys| > 0 by {
        var p :| p in parents;
        assert p in parents.Keys;
      }
    }
  }
}
