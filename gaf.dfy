/**
 * The `gaf` class of goa_specs.py: the column list of the GAF version in use,
 * the positions of the named columns in it, and the per-row helpers the two
 * converters call (variant detection, required-field checks, the GPI parent
 * id, the GPAD relationship, the protein rewrite, and the column
 * correspondence between GAF, GPAD and GPI).
 */
module GafModel {
  import opened Strings
  import opened Schema

  /** The aspect looked up in the relation table: an empty aspect counts as "default". */
  function AspectKey(aspect: string): string
  {
    if aspect == "" then "default" else aspect
  }

  /** The members of `order` that occur in `present`, in the order of `order`. */
  function KeepPresent(order: seq<string>, present: seq<string>): (kept: seq<string>)
    requires Distinct(order)
    ensures forall x :: x in kept <==> x in order && x in present
    ensures forall i, j :: 0 <= i < j < |kept| ==> IndexOf(order, kept[i]) < IndexOf(order, kept[j])
    decreases |order|
  {
    if |order| == 0 then []
    else
      var rest := KeepPresent(order[1..], present);
      assert Distinct(order[1..]);
      forall x | x in rest
        ensures IndexOf(order, x) == 1 + IndexOf(order[1..], x) >= 1
      {
        IndexOfCons(order, x);
        IndexOfSpec(order[1..], x);
      }
      IndexOfDistinct(order, 0);
      if order[0] in present then
        var kept := [order[0]] + rest;
        assert forall i :: 0 < i < |kept| ==> kept[i] == rest[i - 1];
        kept
      else rest
  }

  /** The relation names the aspect table can produce. */
  lemma RelationNames()
    ensures forall a :: a in Aspect2Rln ==>
      Aspect2Rln[a] in {"actively_participates_in", "part_of", "annotated_to"}
    ensures forall a :: a in Aspect2Rln ==> Aspect2Rln[a] != "" && '|' !in Aspect2Rln[a]
    ensures forall q :: q in QualifierOrder ==> '|' !in q
    ensures Distinct(QualifierOrder)
  {
  }

  /** The state of the module-level `gaf` object. */
  class Gaf {
    var fields: seq<Column>
    var fieldsIndex: map<Column, int>
    var taxonIndex: int
    var aspectIndex: int
    var gorefIndex: int
    var featureTypeIndex: int
    var evidenceIndex: int
    var dbIndex: int
    var objectIndex: int
    var qualIndex: int
    var productFormIdIndex: int
    var objectSymbolIndex: int
    var goIdIndex: int
    var withIndex: int
    var objectNameIndex: int
    var objectSynonymIndex: int
    var dateIndex: int
    var assignedByIndex: int
    var annotationExtensionIndex: int

    /** Every index is where `fields.index` finds its column name (-1 when the name is absent). */
    ghost predicate Consistent()
      reads this
    {
      RecordConsistent() && AnnotationConsistent() && ProvenanceConsistent()
    }

    /** The indexes of the columns that identify the annotated object. */
    ghost predicate RecordConsistent()
      reads this`fields, this`dbIndex, this`objectIndex, this`objectSymbolIndex, this`objectNameIndex, this`objectSynonymIndex, this`featureTypeIndex
    {
      dbIndex == IndexOf(fields, Db) &&
      objectIndex == IndexOf(fields, DbObjectId) &&
      objectSymbolIndex == IndexOf(fields, DbObjectSymbol) &&
      objectNameIndex == IndexOf(fields, DbObjectName) &&
      objectSynonymIndex == IndexOf(fields, DbObjectSynonym) &&
      featureTypeIndex == IndexOf(fields, DbObjectType)
    }

    /** The indexes of the columns that describe the annotation. */
    ghost predicate AnnotationConsistent()
      reads this`fields, this`qualIndex, this`goIdIndex, this`gorefIndex, this`evidenceIndex, this`withIndex, this`aspectIndex
    {
      qualIndex == IndexOf(fields, Qualifier) &&
      goIdIndex == IndexOf(fields, GoId) &&
      gorefIndex == IndexOf(fields, DbReference) &&
      evidenceIndex == IndexOf(fields, EvidenceCode) &&
      withIndex == IndexOf(fields, With) &&
      aspectIndex == IndexOf(fields, Aspect)
    }

    /** The indexes of the taxon, date and source columns, and the two GAF 2.0 columns when present. */
    ghost predicate ProvenanceConsistent()
      reads this`fields, this`taxonIndex, this`dateIndex, this`assignedByIndex, this`productFormIdIndex, this`annotationExtensionIndex
    {
      taxonIndex == IndexOf(fields, Taxon) &&
      dateIndex == IndexOf(fields, Date) &&
      assignedByIndex == IndexOf(fields, AssignedBy) &&
      productFormIdIndex == IndexOf(fields, GeneProductFormId) &&
      annotationExtensionIndex == IndexOf(fields, AnnotationExtension)
    }

    /** After `_init`: consistent, and the 15 columns common to both versions are present. */
    ghost predicate Valid()
      reads this
    {
      Consistent() &&
      taxonIndex >= 0 && aspectIndex >= 0 && gorefIndex >= 0 && featureTypeIndex >= 0 &&
      evidenceIndex >= 0 && dbIndex >= 0 && objectIndex >= 0 && qualIndex >= 0 &&
      objectSymbolIndex >= 0 && goIdIndex >= 0 && withIndex >= 0 && objectNameIndex >= 0 &&
      objectSynonymIndex >= 0 && dateIndex >= 0 && assignedByIndex >= 0
    }

    /**
     * The positions a single `_init` leaves: the 15 shared columns at 0..14
     * and, under GAF 2.0, the annotation extension at 15 and the form id at 16.
     */
    ghost predicate Layout(version: string)
      reads this
    {
      fields == GafFieldsFor(version) &&
      dbIndex == 0 && objectIndex == 1 && objectSymbolIndex == 2 && qualIndex == 3 &&
      goIdIndex == 4 && gorefIndex == 5 && evidenceIndex == 6 && withIndex == 7 &&
      aspectIndex == 8 && objectNameIndex == 9 && objectSynonymIndex == 10 &&
      featureTypeIndex == 11 && taxonIndex == 12 && dateIndex == 13 && assignedByIndex == 14 &&
      if Contains(version, "1.") then annotationExtensionIndex == -1 && productFormIdIndex == -1
      else annotationExtensionIndex == 15 && productFormIdIndex == 16
    }

    /** The class attributes before `_init`: no columns, every index -1. */
    constructor()
      ensures fields == [] && fieldsIndex == map[]
      ensures Consistent()
    {
      fields := [];
      fieldsIndex := map[];
      taxonIndex := -1;
      aspectIndex := -1;
      gorefIndex := -1;
      featureTypeIndex := -1;
      evidenceIndex := -1;
      dbIndex := -1;
      objectIndex := -1;
      qualIndex := -1;
      productFormIdIndex := -1;
      objectSymbolIndex := -1;
      goIdIndex := -1;
      withIndex := -1;
      objectNameIndex := -1;
      objectSynonymIndex := -1;
      dateIndex := -1;
      assignedByIndex := -1;
      annotationExtensionIndex := -1;
    }

    /**
     * `gaf._init`: append the columns of the schema the version selects to
     * `fields`, record each name's schema position in `fields_index`, and set
     * the indexes with `fields.index`; the form-id and annotation-extension
     * indexes are set only when those columns exist.
     */
    method Init(version: string)
      requires Consistent()
      modifies this
      ensures fields == old(fields) + GafFieldsFor(version)
      ensures Valid()
      ensures forall k :: 0 <= k < |GafFieldsFor(version)| ==>
        GafFieldsFor(version)[k] in fieldsIndex && fieldsIndex[GafFieldsFor(version)[k]] == k
      ensures forall key :: key in fieldsIndex <==> key in old(fieldsIndex) || key in GafFieldsFor(version)
      ensures forall key :: key in old(fieldsIndex) && key !in GafFieldsFor(version) ==>
        fieldsIndex[key] == old(fieldsIndex)[key]
    {
      var schema := if Contains(version, "1.") then Gaf1Fields else GafFields;
      GafFieldsForShape(version);
      BaseColumnsFound(fields, schema);
      ExtraColumnsKept(fields, schema, GeneProductFormId);
      ExtraColumnsKept(fields, schema, AnnotationExtension);
      fields, fieldsIndex := AppendColumns(fields, fieldsIndex, schema);
      SetIndexes();
      BaseIndexes(fields);
    }

    /** The `fields.index` lookups that end `_init`. */
    method SetIndexes()
      requires GeneProductFormId !in fields ==> productFormIdIndex == -1
      requires AnnotationExtension !in fields ==> annotationExtensionIndex == -1
      modifies this
      ensures fields == old(fields) && fieldsIndex == old(fieldsIndex)
      ensures Consistent()
    {
      SetRecordIndexes();
      assert RecordConsistent();
      SetAnnotationIndexes();
      assert RecordConsistent();
      assert AnnotationConsistent();
      SetProvenanceIndexes();
    }

    /** `fields.index` for the columns that identify the annotated object. */
    method SetRecordIndexes()
      modifies this`dbIndex, this`objectIndex, this`objectSymbolIndex, this`objectNameIndex, this`objectSynonymIndex, this`featureTypeIndex
      ensures RecordConsistent()
    {
      dbIndex := IndexOf(fields, Db);
      objectIndex := IndexOf(fields, DbObjectId);
      objectSymbolIndex := IndexOf(fields, DbObjectSymbol);
      objectNameIndex := IndexOf(fields, DbObjectName);
      objectSynonymIndex := IndexOf(fields, DbObjectSynonym);
      featureTypeIndex := IndexOf(fields, DbObjectType);
    }

    /** `fields.index` for the columns that describe the annotation. */
    method SetAnnotationIndexes()
      modifies this`qualIndex, this`goIdIndex, this`gorefIndex, this`evidenceIndex, this`withIndex, this`aspectIndex
      ensures AnnotationConsistent()
    {
      qualIndex := IndexOf(fields, Qualifier);
      goIdIndex := IndexOf(fields, GoId);
      gorefIndex := IndexOf(fields, DbReference);
      evidenceIndex := IndexOf(fields, EvidenceCode);
      withIndex := IndexOf(fields, With);
      aspectIndex := IndexOf(fields, Aspect);
    }

    /** `fields.index` for the taxon, date and source columns, and the two GAF 2.0 columns when present. */
    method SetProvenanceIndexes()
      requires GeneProductFormId !in fields ==> productFormIdIndex == -1
      requires AnnotationExtension !in fields ==> annotationExtensionIndex == -1
      modifies this`taxonIndex, this`dateIndex, this`assignedByIndex, this`productFormIdIndex, this`annotationExtensionIndex
      ensures ProvenanceConsistent()
    {
      taxonIndex := IndexOf(fields, Taxon);
      dateIndex := IndexOf(fields, Date);
      assignedByIndex := IndexOf(fields, AssignedBy);
      IndexOfSpec(fields, GeneProductFormId);
      IndexOfSpec(fields, AnnotationExtension);
      var formId := IndexOf(fields, GeneProductFormId);
      if formId >= 0 {
        productFormIdIndex := formId;
      }
      var extension := IndexOf(fields, AnnotationExtension);
      if extension >= 0 {
        annotationExtensionIndex := extension;
      }
    }

    /**
     * `is_gene_variant`: the row has a gene-product-form column and it holds a colon.
     * (Python's `i in range(len(row))` is false for the index -1.)
     */
    function IsGeneVariant(row: seq<string>): (r: bool)
      reads this
      ensures r <==> 0 <= productFormIdIndex < |row| && ':' in row[productFormIdIndex]
    {
      if 0 <= productFormIdIndex < |row| then
        ContainsChar(row[productFormIdIndex], ':');
        Contains(row[productFormIdIndex], ":")
      else false
    }

    /** `has_missing_fields`: the first required GAF column that is empty, counted from 1, or 0. */
    method HasMissingFields(row: seq<string>) returns (missing: nat)
      requires |row| <= |fields|
      ensures missing == MissingField(fields, RequiredGafFields, row)
    {
      missing := FirstMissingRequired(fields, RequiredGafFields, row);
    }

    /** `gpi_has_missing_fields`: the same scan over the GPI schema. */
    method GpiHasMissingFields(row: seq<string>) returns (missing: nat)
      requires |row| <= |GpiFields|
      ensures missing == MissingField(GpiFields, RequiredGpiFields, row)
    {
      missing := FirstMissingRequired(GpiFields, RequiredGpiFields, row);
    }

    /** `gpad_has_missing_fields`: the same scan over the GPAD schema. */
    method GpadHasMissingFields(row: seq<string>) returns (missing: nat)
      requires |row| <= |GpadFields|
      ensures missing == MissingField(GpadFields, RequiredGpadFields, row)
    {
      missing := FirstMissingRequired(GpadFields, RequiredGpadFields, row);
    }

    /** `getParent_gp_id`: `DB:DB_Object_ID` of the row. */
    function GetParentGpId(row: seq<string>): (id: string)
      reads this
      requires Valid() && |row| == |fields|
      ensures id == row[dbIndex] + ":" + row[objectIndex]
    {
      row[dbIndex] + ":" + row[objectIndex]
    }

    /**
     * `getGPAD_relationship`: the qualifiers of `qualifier_order` found in the
     * lower-cased, `|`-split qualifier column, then the relation of the aspect,
     * joined with `|`; "" when the aspect has no relation.
     */
    function GetGpadRelationship(row: seq<string>): (r: string)
      reads this
      requires Valid() && |row| == |fields|
      ensures r == "" <==> AspectKey(row[aspectIndex]) !in Aspect2Rln
      ensures r != "" ==>
        Split(r, '|') ==
          KeepPresent(QualifierOrder, Split(Lower(row[qualIndex]), '|')) +
          [Aspect2Rln[AspectKey(row[aspectIndex])]]
    {
      RelationNames();
      var qualifiers := Split(Lower(row[qualIndex]), '|');
      var relations := KeepPresent(QualifierOrder, qualifiers);
      var aspect := if row[aspectIndex] != "" then row[aspectIndex] else "default";
      if aspect in Aspect2Rln then
        var parts := relations + [Aspect2Rln[aspect]];
        assert forall k :: 0 <= k < |parts| ==> '|' !in parts[k] by {
          forall k | 0 <= k < |parts|
            ensures '|' !in parts[k]
          {
            if k < |relations| {
              assert relations[k] in relations;
            }
          }
        }
        SplitJoin(parts, '|');
        Join(parts, "|")
      else ""
    }

    /** The spec of `setProtein`: which count it returns, and the row and protein map it leaves. */
    function ProteinRewrite(row: seq<string>, proteins: map<string, string>): (u: ProteinUpdate)
      reads this
      requires Valid() && |row| == |fields|
      ensures |u.row| == |row|
      ensures u.total == if 0 <= productFormIdIndex < |row| && row[productFormIdIndex] == "" then 1 else 0
      ensures forall k :: 0 <= k < |row| && k != dbIndex && k != objectIndex ==> u.row[k] == row[k]
    {
      if !(0 <= productFormIdIndex < |row|) then ProteinUpdate(0, row, proteins)
      else
        var protein := row[productFormIdIndex];
        if protein == "" then ProteinUpdate(1, row, proteins)
        else
          var parts := Split(protein, ':');
          if |parts| >= 2 then
            ProteinUpdate(0, row[dbIndex := parts[0]][objectIndex := Join(parts[1..], ":")],
                          proteins[protein := row[objectIndex]])
          else ProteinUpdate(0, row, proteins)
    }

    /**
     * `setProtein`: for a non-empty form id `DB:ID` (two or more colon parts)
     * record the old object id under the form id, and rewrite DB and the object
     * id in place; an empty form id counts 1.
     */
    method SetProtein(proteinMap: map<string, string>, row: array<string>)
      returns (total: int, proteins: map<string, string>)
      requires Valid() && row.Length == |fields|
      modifies row
      ensures ProteinRewrite(old(row[..]), proteinMap) == ProteinUpdate(total, row[..], proteins)
    {
      total := 0;
      proteins := proteinMap;
      if !(0 <= productFormIdIndex < row.Length) {
        return;
      }
      var protein := row[productFormIdIndex];
      if protein == "" {
        total := 1;
      } else {
        var parts := Split(protein, ':');
        if |parts| >= 2 {
          proteins := proteins[protein := row[objectIndex]];
          row[dbIndex] := parts[0];
          var last := |parts|;
          var pid := "";
          if |parts| == 2 {
            pid := parts[1];
            assert parts[1..] == [parts[1]];
          } else {
            pid := Join(parts[1..last], ":");
            assert parts[1..last] == parts[1..];
          }
          row[objectIndex] := pid;
        }
      }
    }

    /** One GAF column's counterparts, as `getgaf2gpadgpi` numbers them (1-based). */
    function Gaf2GpadGpi(i: nat): (r: (ColumnRef, ColumnRef))
      reads this
      requires i < |fields|
      ensures r.0 == NotMapped <==> fields[i] !in GpadFields
      ensures r.0 != NotMapped ==> r.0.Single? && 1 <= r.0.n <= |GpadFields| && GpadFields[r.0.n - 1] == fields[i]
      ensures i == productFormIdIndex ==> r.1 == Single(GpiParentIndex + 1)
      ensures i != productFormIdIndex ==> (r.1 == NotMapped <==> fields[i] !in GpiFields)
      ensures i != productFormIdIndex && r.1 != NotMapped ==>
        1 <= r.1.n <= |GpiFields| && GpiFields[r.1.n - 1] == fields[i] &&
        (r.1.Slash? <==> r.1.n - 1 == GpiDbIndex || r.1.n - 1 == GpiObjectIndex) &&
        (r.1.Slash? ==> r.1.m == GpiParentIndex + 1) &&
        (!r.1.Slash? ==> r.1.Single?)
    {
      IndexOfSpec(GpiFields, fields[i]);
      IndexOfSpec(GpadFields, fields[i]);
      var gpi0 := IndexOf(GpiFields, fields[i]);
      var gpad := IndexOf(GpadFields, fields[i]);
      var gpi := if i == productFormIdIndex then GpiParentIndex else gpi0;
      var gpadRef := if gpad >= 0 then Single(gpad + 1) else NotMapped;
      var gpiRef :=
        if gpi < 0 then NotMapped
        else if gpi == GpiDbIndex || gpi == GpiObjectIndex then Slash(gpi + 1, GpiParentIndex + 1)
        else Single(gpi + 1);
      (gpadRef, gpiRef)
    }

    /** One GPI column's GAF source, as `getgpi2gaf` numbers it. */
    function Gpi2Gaf(i: nat): (r: ColumnRef)
      reads this
      requires i < |GpiFields|
      ensures GpiFields[i] in fields ==>
        r != NotMapped && 1 <= r.n <= |fields| && fields[r.n - 1] == GpiFields[i] &&
        (i == GpiDbIndex || i == GpiObjectIndex ==> r == Slash(r.n, |fields|)) &&
        (i != GpiDbIndex && i != GpiObjectIndex ==> r == Single(r.n))
      ensures GpiFields[i] !in fields && i == GpiParentIndex ==> r == Plus(dbIndex + 1, objectIndex + 1)
      ensures GpiFields[i] !in fields && i != GpiParentIndex ==> r == NotMapped
    {
      IndexOfSpec(fields, GpiFields[i]);
      if GpiFields[i] in fields then
        var g := IndexOf(fields, GpiFields[i]);
        if i == GpiDbIndex then Slash(g + 1, |fields|)
        else if i == GpiObjectIndex then Slash(g + 1, |fields|)
        else Single(g + 1)
      else if i == GpiParentIndex then Plus(dbIndex + 1, objectIndex + 1)
      else NotMapped
    }

    /** One GPAD column's GAF source, as `getgpad2gaf` numbers it. */
    function Gpad2Gaf(i: nat): (r: ColumnRef)
      reads this
      requires i < |GpadFields|
      ensures GpadFields[i] in fields && i != GpadRelationshipIndex ==>
        r != NotMapped && 1 <= r.n <= |fields| && fields[r.n - 1] == GpadFields[i] &&
        (i == GpadEvidenceIndex ==> r == Plus(r.n, r.n - 1)) &&
        (i == GpadDbIndex || i == GpadObjectIndex ==> r == Slash(r.n, |fields|)) &&
        (i != GpadEvidenceIndex && i != GpadDbIndex && i != GpadObjectIndex ==> r == Single(r.n))
      ensures GpadFields[i] in fields && i == GpadRelationshipIndex ==> r == Bar(qualIndex + 1, aspectIndex + 1)
      ensures GpadFields[i] !in fields && i == GpadAnnotExtensionIndex ==> r == Single(evidenceIndex + 1)
      ensures GpadFields[i] !in fields && i != GpadAnnotExtensionIndex ==> r == NotMapped
    {
      IndexOfSpec(fields, GpadFields[i]);
      if GpadFields[i] in fields then
        var g := IndexOf(fields, GpadFields[i]);
        if i == GpadEvidenceIndex then Plus(g + 1, g)
        else if i == GpadObjectIndex then Slash(g + 1, |fields|)
        else if i == GpadDbIndex then Slash(g + 1, |fields|)
        else if i == GpadRelationshipIndex then Bar(qualIndex + 1, aspectIndex + 1)
        else Single(g + 1)
      else if i == GpadAnnotExtensionIndex then Single(evidenceIndex + 1)
      else NotMapped
    }
  }

  /**
   * After `_init` on the empty class attributes, the columns are those of the
   * chosen schema, without repeats, and every index sits at its fixed position.
   */
  lemma InitialisedLayout(g: Gaf, version: string)
    requires g.fields == GafFieldsFor(version) && g.Consistent()
    ensures g.Layout(version) && g.Valid() && Distinct(g.fields)
  {
    GafFieldsForShape(version);
    if Contains(version, "1.") {
      Gaf1Positions();
      Gaf1Lacks();
    } else {
      GafPositions();
    }
  }

  /** Under GAF 1.0 there is no gene product form column, so no row is a variant. */
  lemma Gaf1NeverVariant(g: Gaf, version: string, row: seq<string>)
    requires g.fields == GafFieldsFor(version) && Contains(version, "1.")
    requires g.productFormIdIndex == IndexOf(g.fields, GeneProductFormId)
    ensures !g.IsGeneVariant(row)
  {
    Gaf1Lacks();
  }

  /** Under GAF 2.0 a row is a variant exactly when its 17th column holds a colon. */
  lemma Gaf2VariantColumn(g: Gaf, version: string, row: seq<string>)
    requires g.fields == GafFieldsFor(version) && !Contains(version, "1.")
    requires g.productFormIdIndex == IndexOf(g.fields, GeneProductFormId)
    requires |row| == 17
    ensures g.IsGeneVariant(row) <==> ':' in row[16]
  {
    IndexFromAt(GafFields, GeneProductFormId, 0, 16);
  }

  /** In a valid layout DB and DB_Object_ID are two different columns. */
  lemma DbObjectDistinct(g: Gaf)
    requires g.Valid()
    ensures 0 <= g.dbIndex < |g.fields| && 0 <= g.objectIndex < |g.fields|
    ensures g.dbIndex != g.objectIndex
  {
    IndexOfSpec(g.fields, Db);
    IndexOfSpec(g.fields, DbObjectId);
  }

  /** The parent id splits back into the row's DB and object id when the DB has no colon. */
  lemma ParentIdSplits(g: Gaf, row: seq<string>)
    requires g.Valid() && |row| == |g.fields|
    requires ':' !in row[g.dbIndex]
    ensures Split(g.GetParentGpId(row), ':')[0] == row[g.dbIndex]
    ensures Join(Split(g.GetParentGpId(row), ':')[1..], ":") == row[g.objectIndex]
  {
    var db, obj := row[g.dbIndex], row[g.objectIndex];
    assert g.GetParentGpId(row) == db + [':'] + obj;
    SplitCons(db, ':', obj);
    assert Split(g.GetParentGpId(row), ':')[1..] == Split(obj, ':');
    JoinSplit(obj, ':');
  }

  /** `getGPAD_relationship` looks only at the qualifier and the aspect column. */
  lemma RelationshipColumns(g: Gaf, a: seq<string>, b: seq<string>)
    requires g.Valid() && |a| == |b| == |g.fields|
    requires a[g.qualIndex] == b[g.qualIndex] && a[g.aspectIndex] == b[g.aspectIndex]
    ensures g.GetGpadRelationship(a) == g.GetGpadRelationship(b)
  {
  }

  /**
   * A non-empty relationship ends with one of the three relations, and every
   * component before it is one of the ordered qualifiers.
   */
  lemma RelationshipShape(g: Gaf, row: seq<string>)
    requires g.Valid() && |row| == |g.fields|
    ensures var r := g.GetGpadRelationship(row);
      var parts := Split(r, '|');
      r != "" ==>
        parts[|parts| - 1] in {"actively_participates_in", "part_of", "annotated_to"} &&
        forall k :: 0 <= k < |parts| - 1 ==> parts[k] in QualifierOrder
  {
    var r := g.GetGpadRelationship(row);
    if r != "" {
      RelationNames();
      var kept := KeepPresent(QualifierOrder, Split(Lower(row[g.qualIndex]), '|'));
      var parts := Split(r, '|');
      assert parts == kept + [Aspect2Rln[AspectKey(row[g.aspectIndex])]];
      forall k | 0 <= k < |parts| - 1
        ensures parts[k] in QualifierOrder
      {
        assert parts[k] == kept[k];
        assert kept[k] in kept;
      }
    }
  }

  /**
   * `setProtein` on a form id holding a colon: DB becomes the part before the
   * first colon and the object id the rest, so together they spell the form
   * id again; the old object id is recorded under the form id.
   */
  lemma ProteinRewriteRestores(g: Gaf, row: seq<string>, proteins: map<string, string>)
    requires g.Valid() && |row| == |g.fields|
    requires 0 <= g.productFormIdIndex < |row| && ':' in row[g.productFormIdIndex]
    ensures var u := g.ProteinRewrite(row, proteins);
      u.row[g.dbIndex] + ":" + u.row[g.objectIndex] == row[g.productFormIdIndex] &&
      ':' !in u.row[g.dbIndex] &&
      u.proteins == proteins[row[g.productFormIdIndex] := row[g.objectIndex]] &&
      u.total == 0
  {
    var form := row[g.productFormIdIndex];
    var parts := Split(form, ':');
    SplitHasSeparator(form, ':');
    DbObjectDistinct(g);
    JoinSplit(form, ':');
    assert Join(parts, ":") == parts[0] + ":" + Join(parts[1..], ":");
    assert parts[0] == parts[0];
  }

  /** `setProtein` leaves a row alone when its form id is empty or has no colon. */
  lemma ProteinRewriteKeeps(g: Gaf, row: seq<string>, proteins: map<string, string>)
    requires g.Valid() && |row| == |g.fields|
    requires !(0 <= g.productFormIdIndex < |row|) || ':' !in row[g.productFormIdIndex]
    ensures g.ProteinRewrite(row, proteins).row == row
    ensures g.ProteinRewrite(row, proteins).proteins == proteins
  {
    if 0 <= g.productFormIdIndex < |row| {
      SplitNoSeparator(row[g.productFormIdIndex], ':');
    }
  }

  /**
   * The GAF-to-GPAD table and the GPAD-to-GAF table agree: a GAF column
   * printed against GPAD column n is the column GPAD column n is printed against.
   */
  lemma GpadTablesAgree(g: Gaf, version: string, i: nat)
    requires g.fields == GafFieldsFor(version) && g.qualIndex == IndexOf(g.fields, Qualifier)
    requires i < |g.fields| && g.Gaf2GpadGpi(i).0 != NotMapped
    ensures g.Gpad2Gaf(g.Gaf2GpadGpi(i).0.n - 1).n == i + 1
    ensures var j := g.Gaf2GpadGpi(i).0.n - 1;
      j != GpadEvidenceIndex && j != GpadDbIndex && j != GpadObjectIndex && j != GpadRelationshipIndex ==>
        g.Gpad2Gaf(j) == Single(i + 1)
  {
    GafFieldsForShape(version);
    IndexOfDistinct(g.fields, i);
    var j := g.Gaf2GpadGpi(i).0.n - 1;
    assert GpadFields[j] == g.fields[i];
  }

  /**
   * The GAF-to-GPI table and the GPI-to-GAF table agree for every column other
   * than the gene product form id.
   */
  lemma GpiTablesAgree(g: Gaf, version: string, i: nat)
    requires g.fields == GafFieldsFor(version)
    requires i < |g.fields| && i != g.productFormIdIndex && g.Gaf2GpadGpi(i).1 != NotMapped
    ensures g.Gpi2Gaf(g.Gaf2GpadGpi(i).1.n - 1).n == i + 1
  {
    GafFieldsForShape(version);
    IndexOfDistinct(g.fields, i);
    var j := g.Gaf2GpadGpi(i).1.n - 1;
    assert GpiFields[j] == g.fields[i];
    assert GpiFields[j] in g.fields;
  }

  /**
   * The parent column is where the two GPI tables differ: the GAF-to-GPI table
   * sends the gene product form id there, while the GPI-to-GAF table builds
   * the parent from DB and DB_Object_ID.
   */
  lemma ParentColumnTables(g: Gaf, version: string)
    requires g.fields == GafFieldsFor(version) && !Contains(version, "1.")
    requires g.productFormIdIndex == IndexOf(g.fields, GeneProductFormId)
    ensures 0 <= g.productFormIdIndex < |g.fields|
    ensures g.Gaf2GpadGpi(g.productFormIdIndex).1 == Single(GpiParentIndex + 1)
    ensures g.Gpi2Gaf(GpiParentIndex) == Plus(g.dbIndex + 1, g.objectIndex + 1)
  {
    IndexFromAt(GafFields, GeneProductFormId, 0, 16);
    IndexOfSpec(GafFields, ParentObjectId);
  }

  /** What `setProtein` leaves behind: its return value, the row, and the protein map. */
  datatype ProteinUpdate = ProteinUpdate(total: int, row: seq<string>, proteins: map<string, string>)

  /**
   * A column number as the correspondence tables print it: `n`, `n/m`,
   * `n + m`, `n|m`, or "n/a".
   */
  datatype ColumnRef = Single(n: int) | Slash(n: int, m: int) | Plus(n: int, m: int) | Bar(n: int, m: int) | NotMapped

  /** The `_init` loop: append each schema column and record its schema position. */
  method AppendColumns(names: seq<Column>, positions: map<Column, int>, schema: seq<Column>)
    returns (names': seq<Column>, positions': map<Column, int>)
    requires Distinct(schema)
    ensures names' == names + schema
    ensures forall k :: 0 <= k < |schema| ==> schema[k] in positions' && positions'[schema[k]] == k
    ensures forall key :: key in positions' <==> key in positions || key in schema
    ensures forall key :: key in positions && key !in schema ==> positions'[key] == positions[key]
  {
    names', positions' := names, positions;
    var i := 0;
    while i < |schema|
      invariant 0 <= i <= |schema|
      invariant names' == names + schema[..i]
      invariant forall k :: 0 <= k < i ==> schema[k] in positions' && positions'[schema[k]] == k
      invariant forall key :: key in positions' <==> key in positions || key in schema[..i]
      invariant forall key :: key in positions && key !in schema[..i] ==> positions'[key] == positions[key]
    {
      assert schema[..i + 1] == schema[..i] + [schema[i]];
      positions' := positions'[schema[i] := i];
      names' := names' + [schema[i]];
      i := i + 1;
    }
    assert schema[..i] == schema;
  }

  /** The 15 columns both GAF versions share all occur in `s`. */
  ghost predicate BasePresent(s: seq<Column>)
  {
    forall k :: 0 <= k < |Gaf1Fields| ==> Gaf1Fields[k] in s
  }

  /** A column name absent after appending was absent before, where `list.index` also gave -1. */
  lemma ExtraColumnsKept(before: seq<Column>, schema: seq<Column>, name: Column)
    ensures name !in before + schema ==> IndexOf(before, name) == -1
  {
    IndexOfSpec(before, name);
    if name in before {
      var k :| 0 <= k < |before| && before[k] == name;
      assert (before + schema)[k] == name;
    }
  }

  /** Appending a schema that starts with the GAF 1.0 columns keeps all 15 present. */
  lemma BaseColumnsFound(before: seq<Column>, schema: seq<Column>)
    requires |schema| >= 15 && schema[..15] == Gaf1Fields
    ensures BasePresent(before + schema)
  {
    var s := before + schema;
    forall k | 0 <= k < 15
      ensures Gaf1Fields[k] in s
    {
      assert schema[k] == schema[..15][k];
      assert s[|before| + k] == schema[k];
    }
  }

  /** With the 15 shared columns present, `list.index` finds each of them. */
  lemma BaseIndexes(s: seq<Column>)
    requires BasePresent(s)
    ensures IndexOf(s, Taxon) >= 0
    ensures IndexOf(s, Aspect) >= 0
    ensures IndexOf(s, DbReference) >= 0
    ensures IndexOf(s, DbObjectType) >= 0
    ensures IndexOf(s, EvidenceCode) >= 0
    ensures IndexOf(s, Db) >= 0
    ensures IndexOf(s, DbObjectId) >= 0
    ensures IndexOf(s, Qualifier) >= 0
    ensures IndexOf(s, DbObjectSymbol) >= 0
    ensures IndexOf(s, GoId) >= 0
    ensures IndexOf(s, With) >= 0
    ensures IndexOf(s, DbObjectName) >= 0
    ensures IndexOf(s, DbObjectSynonym) >= 0
    ensures IndexOf(s, Date) >= 0
    ensures IndexOf(s, AssignedBy) >= 0
  {
    var names := Gaf1Fields;
    assert names[0] in s && names[1] in s && names[2] in s && names[3] in s && names[4] in s;
    assert names[5] in s && names[6] in s && names[7] in s && names[8] in s && names[9] in s;
    assert names[10] in s && names[11] in s && names[12] in s && names[13] in s && names[14] in s;
    IndexOfSpec(s, Taxon);
    IndexOfSpec(s, Aspect);
    IndexOfSpec(s, DbReference);
    IndexOfSpec(s, DbObjectType);
    IndexOfSpec(s, EvidenceCode);
    IndexOfSpec(s, Db);
    IndexOfSpec(s, DbObjectId);
    IndexOfSpec(s, Qualifier);
    IndexOfSpec(s, DbObjectSymbol);
    IndexOfSpec(s, GoId);
    IndexOfSpec(s, With);
    IndexOfSpec(s, DbObjectName);
    IndexOfSpec(s, DbObjectSynonym);
    IndexOfSpec(s, Date);
    IndexOfSpec(s, AssignedBy);
  }
}
