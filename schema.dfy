/**
 * The schema registry: the ordered column names of GAF 2.0, GAF 1.0, GPAD,
 * GPI and the MGI marker report, the required subsets, the fixed
 * qualifier/aspect tables, schema selection from a version string, and the
 * first-missing-required-field scan shared by the three validators.
 */
module Schema {
  import opened Strings

  /**
   * The normalised column names the four file layouts share. A column of
   * one layout is matched with a column of another by its name, and the
   * names form a fixed vocabulary; each is written as in the source files
   * (`Label`).
   */
  datatype Column =
    | Db | DbObjectId | DbObjectSymbol | Qualifier | GoId | DbReference | EvidenceCode
    | With | Aspect | DbObjectName | DbObjectSynonym | DbObjectType | Taxon | Date
    | AssignedBy | AnnotationExtension | GeneProductFormId | AnnotationProperties
    | ParentObjectId | DbXref | Chr | Cm | Start | End | Strand | Status | MrkType

  /** The text of each column name. */
  function Label(c: Column): string
  {
    match c
    case Db => "DB"
    case DbObjectId => "DB_Object_ID"
    case DbObjectSymbol => "DB_Object_Symbol"
    case Qualifier => "Qualifier"
    case GoId => "GO_ID"
    case DbReference => "DB_Reference"
    case EvidenceCode => "Evidence_Code"
    case With => "With"
    case Aspect => "Aspect"
    case DbObjectName => "DB_Object_Name"
    case DbObjectSynonym => "DB_Object_Synonym"
    case DbObjectType => "DB_Object_Type"
    case Taxon => "Taxon"
    case Date => "Date"
    case AssignedBy => "Assigned_By"
    case AnnotationExtension => "Annotation_Extension"
    case GeneProductFormId => "Gene_Product_Form_ID"
    case AnnotationProperties => "Annotation_Properties"
    case ParentObjectId => "Parent_Object_ID"
    case DbXref => "DB_Xref"
    case Chr => "chr"
    case Cm => "cm"
    case Start => "start"
    case End => "end"
    case Strand => "strand"
    case Status => "status"
    case MrkType => "mrk_type"
  }

  datatype Option<T> = None | Some(value: T)

  /** The column a name stands for, if any. */
  function ColumnNamed(name: string): Option<Column>
  {
    match name
    case "chr" => Some(Chr)
    case "cm" => Some(Cm)
    case "start" => Some(Start)
    case "end" => Some(End)
    case "strand" => Some(Strand)
    case "status" => Some(Status)
    case "mrk_type" => Some(MrkType)
    case "DB" => Some(Db)
    case "DB_Object_ID" => Some(DbObjectId)
    case "DB_Object_Symbol" => Some(DbObjectSymbol)
    case "Qualifier" => Some(Qualifier)
    case "GO_ID" => Some(GoId)
    case "DB_Reference" => Some(DbReference)
    case "Evidence_Code" => Some(EvidenceCode)
    case "With" => Some(With)
    case "Aspect" => Some(Aspect)
    case "DB_Object_Name" => Some(DbObjectName)
    case "DB_Object_Synonym" => Some(DbObjectSynonym)
    case "DB_Object_Type" => Some(DbObjectType)
    case "Taxon" => Some(Taxon)
    case "Date" => Some(Date)
    case "Assigned_By" => Some(AssignedBy)
    case "Annotation_Extension" => Some(AnnotationExtension)
    case "Gene_Product_Form_ID" => Some(GeneProductFormId)
    case "Annotation_Properties" => Some(AnnotationProperties)
    case "Parent_Object_ID" => Some(ParentObjectId)
    case "DB_Xref" => Some(DbXref)
    case _ => None
  }

  /** Every name reads back as its column. */
  lemma LabelRoundTrip(c: Column)
    ensures ColumnNamed(Label(c)) == Some(c)
  {
    if c.Db? || c.DbObjectId? || c.DbObjectSymbol? || c.DbObjectName? || c.DbObjectSynonym? ||
       c.DbObjectType? || c.Taxon? || c.ParentObjectId? || c.DbXref? {
      IdentityLabelsRead(c);
    } else if c.Chr? || c.Cm? || c.Start? || c.End? || c.Strand? || c.Status? || c.MrkType? {
      MarkerLabelsRead(c);
    } else {
      AnnotationLabelsRead(c);
    }
  }

  /** The names of the columns that identify an object (the GPI columns) read back. */
  lemma IdentityLabelsRead(c: Column)
    requires c.Db? || c.DbObjectId? || c.DbObjectSymbol? || c.DbObjectName? || c.DbObjectSynonym? ||
      c.DbObjectType? || c.Taxon? || c.ParentObjectId? || c.DbXref?
    ensures ColumnNamed(Label(c)) == Some(c)
  {
  }

  /** The names of the columns that describe an annotation read back. */
  lemma AnnotationLabelsRead(c: Column)
    requires c.Qualifier? || c.GoId? || c.DbReference? || c.EvidenceCode? || c.With? || c.Aspect? ||
      c.Date? || c.AssignedBy? || c.AnnotationExtension? || c.GeneProductFormId? || c.AnnotationProperties?
    ensures ColumnNamed(Label(c)) == Some(c)
  {
  }

  /** The names of the marker report's own columns read back. */
  lemma MarkerLabelsRead(c: Column)
    requires c.Chr? || c.Cm? || c.Start? || c.End? || c.Strand? || c.Status? || c.MrkType?
    ensures ColumnNamed(Label(c)) == Some(c)
  {
  }

  /** Different columns have different names, so matching by name is matching by column. */
  lemma LabelInjective(a: Column, b: Column)
    requires Label(a) == Label(b)
    ensures a == b
  {
    LabelRoundTrip(a);
    LabelRoundTrip(b);
  }

  /** GAF 2.0: the first 17 columns. */
  const GafFields: seq<Column> := [
    Db, DbObjectId, DbObjectSymbol, Qualifier, GoId, DbReference, EvidenceCode, With, Aspect,
    DbObjectName, DbObjectSynonym, DbObjectType, Taxon, Date, AssignedBy,
    AnnotationExtension, GeneProductFormId]

  /** GAF 1.0: the first 15 columns, the same as GAF 2.0's first 15. */
  const Gaf1Fields: seq<Column> := [
    Db, DbObjectId, DbObjectSymbol, Qualifier, GoId, DbReference, EvidenceCode, With, Aspect,
    DbObjectName, DbObjectSynonym, DbObjectType, Taxon, Date, AssignedBy]

  const RequiredGafFields: seq<Column> := [
    Db, DbObjectId, DbObjectSymbol, GoId, DbReference, EvidenceCode, Aspect, DbObjectType,
    Taxon, Date, AssignedBy]

  /** GPAD 1.0: 12 columns; `Qualifier` holds the relationship. */
  const GpadFields: seq<Column> := [
    Db, DbObjectId, Qualifier, GoId, DbReference, EvidenceCode, With, Taxon, Date,
    AssignedBy, AnnotationExtension, AnnotationProperties]

  const RequiredGpadFields: seq<Column> := [
    Db, DbObjectId, Qualifier, GoId, DbReference, EvidenceCode, Date, AssignedBy]

  /** GPI 1.0: 9 columns. */
  const GpiFields: seq<Column> := [
    Db, DbObjectId, DbObjectSymbol, DbObjectName, DbObjectSynonym, DbObjectType, Taxon,
    ParentObjectId, DbXref]

  const RequiredGpiFields: seq<Column> := [
    Db, DbObjectId, DbObjectSymbol, DbObjectType, Taxon]

  /** The MGI marker report (MRK_List2.rpt): the first 12 columns. */
  const MrkFields: seq<Column> := [
    DbObjectId, Chr, Cm, Start, End, Strand, DbObjectSymbol, Status, DbObjectName, MrkType,
    DbObjectType, DbObjectSynonym]

  /** Marker-report feature types and the GPI type each is written as. */
  const GpiType: map<string, string> := map[
    "protein coding gene" := "protein coding gene",
    "non-coding RNA gene" := "ncRNA",
    "rRNA gene" := "rRNA",
    "tRNA gene" := "tRNA",
    "snRNA gene" := "snRNA",
    "snoRNA gene" := "snoRNA",
    "miRNA gene" := "miRNA",
    "scRNA gene" := "scRNA",
    "lincRNA gene" := "lincRNA",
    "SRP RNA gene" := "SRP_RNA",
    "RNase P RNA gene" := "RNase_P_RNA",
    "RNase MRP RNA gene" := "RNase_MRP_RNA",
    "telomerase RNA gene" := "telomerase_RNA"]

  /** The GAF qualifiers kept in a GPAD relationship, in the order they are written. */
  const QualifierOrder: seq<string> := ["not", "colocalizes_with", "contributes_to"]

  /** The relation implied by each GAF aspect; an empty aspect is looked up as "default". */
  const Aspect2Rln: map<string, string> := map[
    "P" := "actively_participates_in",
    "F" := "actively_participates_in",
    "C" := "part_of",
    "default" := "annotated_to"]

  /** The built-in list of GAF evidence codes (the reference loader may append more). */
  const DefaultEvidenceCodes: seq<string> := [
    "EXP", "IDA", "IPI", "IMP", "IGI", "IEP", "ISS", "ISO", "ISA", "ISM",
    "IGC", "IBA", "IBD", "IKR", "IRD", "RCA", "NAS", "TAS", "IC", "ND", "IEA"]

  // GPAD column positions (0-based).
  const GpadDbIndex := 0
  const GpadObjectIndex := 1
  const GpadRelationshipIndex := 2
  const GpadGoIdIndex := 3
  const GpadGorefIndex := 4
  const GpadEvidenceIndex := 5
  const GpadTaxonIndex := 7
  const GpadAnnotExtensionIndex := 10
  const GpadAnnotPropertiesIndex := 11

  // GPI column positions (0-based).
  const GpiDbIndex := 0
  const GpiObjectIndex := 1
  const GpiObjectSymbolIndex := 2
  const GpiObjectNameIndex := 3
  const GpiObjectSynonymIndex := 4
  const GpiObjectTypeIndex := 5
  const GpiTaxonIndex := 6
  const GpiParentIndex := 7

  // Marker report column positions (0-based).
  const MrkObjectIdIndex := 0
  const MrkObjectSymbolIndex := 6
  const MrkObjectNameIndex := 8
  const MrkFeatureTypeIndex := 10
  const MrkObjectSynonymIndex := 11

  /** The named GPAD positions are the positions `list.index` finds for those names. */
  lemma GpadPositions()
    ensures IndexOf(GpadFields, Db) == GpadDbIndex
    ensures IndexOf(GpadFields, DbObjectId) == GpadObjectIndex
    ensures IndexOf(GpadFields, Qualifier) == GpadRelationshipIndex
    ensures IndexOf(GpadFields, GoId) == GpadGoIdIndex
    ensures IndexOf(GpadFields, DbReference) == GpadGorefIndex
    ensures IndexOf(GpadFields, EvidenceCode) == GpadEvidenceIndex
    ensures IndexOf(GpadFields, Taxon) == GpadTaxonIndex
    ensures IndexOf(GpadFields, AnnotationExtension) == GpadAnnotExtensionIndex
    ensures IndexOf(GpadFields, AnnotationProperties) == GpadAnnotPropertiesIndex
  {
    assert Distinct(GpadFields);
    IndexOfDistinct(GpadFields, GpadDbIndex);
    IndexOfDistinct(GpadFields, GpadObjectIndex);
    IndexOfDistinct(GpadFields, GpadRelationshipIndex);
    IndexOfDistinct(GpadFields, GpadGoIdIndex);
    IndexOfDistinct(GpadFields, GpadGorefIndex);
    IndexOfDistinct(GpadFields, GpadEvidenceIndex);
    IndexOfDistinct(GpadFields, GpadTaxonIndex);
    IndexOfDistinct(GpadFields, GpadAnnotExtensionIndex);
    IndexOfDistinct(GpadFields, GpadAnnotPropertiesIndex);
  }

  /** The named GPI positions are the positions `list.index` finds for those names. */
  lemma GpiPositions()
    ensures IndexOf(GpiFields, Db) == GpiDbIndex
    ensures IndexOf(GpiFields, DbObjectId) == GpiObjectIndex
    ensures IndexOf(GpiFields, DbObjectSymbol) == GpiObjectSymbolIndex
    ensures IndexOf(GpiFields, DbObjectName) == GpiObjectNameIndex
    ensures IndexOf(GpiFields, DbObjectSynonym) == GpiObjectSynonymIndex
    ensures IndexOf(GpiFields, DbObjectType) == GpiObjectTypeIndex
    ensures IndexOf(GpiFields, Taxon) == GpiTaxonIndex
    ensures IndexOf(GpiFields, ParentObjectId) == GpiParentIndex
  {
    assert Distinct(GpiFields);
    IndexOfDistinct(GpiFields, GpiDbIndex);
    IndexOfDistinct(GpiFields, GpiObjectIndex);
    IndexOfDistinct(GpiFields, GpiObjectSymbolIndex);
    IndexOfDistinct(GpiFields, GpiObjectNameIndex);
    IndexOfDistinct(GpiFields, GpiObjectSynonymIndex);
    IndexOfDistinct(GpiFields, GpiObjectTypeIndex);
    IndexOfDistinct(GpiFields, GpiTaxonIndex);
    IndexOfDistinct(GpiFields, GpiParentIndex);
  }

  /** The named marker report positions are the positions `list.index` finds for those names. */
  lemma MrkPositions()
    ensures IndexOf(MrkFields, DbObjectId) == MrkObjectIdIndex
    ensures IndexOf(MrkFields, DbObjectSymbol) == MrkObjectSymbolIndex
    ensures IndexOf(MrkFields, DbObjectName) == MrkObjectNameIndex
    ensures IndexOf(MrkFields, DbObjectType) == MrkFeatureTypeIndex
    ensures IndexOf(MrkFields, DbObjectSynonym) == MrkObjectSynonymIndex
  {
    assert Distinct(MrkFields);
    IndexOfDistinct(MrkFields, MrkObjectIdIndex);
    IndexOfDistinct(MrkFields, MrkObjectSymbolIndex);
    IndexOfDistinct(MrkFields, MrkObjectNameIndex);
    IndexOfDistinct(MrkFields, MrkFeatureTypeIndex);
    IndexOfDistinct(MrkFields, MrkObjectSynonymIndex);
  }

  /** Where `list.index` finds each GAF 2.0 column name. */
  lemma GafPositions()
    ensures IndexOf(GafFields, Db) == 0
    ensures IndexOf(GafFields, DbObjectId) == 1
    ensures IndexOf(GafFields, DbObjectSymbol) == 2
    ensures IndexOf(GafFields, Qualifier) == 3
    ensures IndexOf(GafFields, GoId) == 4
    ensures IndexOf(GafFields, DbReference) == 5
    ensures IndexOf(GafFields, EvidenceCode) == 6
    ensures IndexOf(GafFields, With) == 7
    ensures IndexOf(GafFields, Aspect) == 8
    ensures IndexOf(GafFields, DbObjectName) == 9
    ensures IndexOf(GafFields, DbObjectSynonym) == 10
    ensures IndexOf(GafFields, DbObjectType) == 11
    ensures IndexOf(GafFields, Taxon) == 12
    ensures IndexOf(GafFields, Date) == 13
    ensures IndexOf(GafFields, AssignedBy) == 14
    ensures IndexOf(GafFields, AnnotationExtension) == 15
    ensures IndexOf(GafFields, GeneProductFormId) == 16
  {
    assert Distinct(GafFields);
    IndexOfDistinct(GafFields, 0);
    IndexOfDistinct(GafFields, 1);
    IndexOfDistinct(GafFields, 2);
    IndexOfDistinct(GafFields, 3);
    IndexOfDistinct(GafFields, 4);
    IndexOfDistinct(GafFields, 5);
    IndexOfDistinct(GafFields, 6);
    IndexOfDistinct(GafFields, 7);
    IndexOfDistinct(GafFields, 8);
    IndexOfDistinct(GafFields, 9);
    IndexOfDistinct(GafFields, 10);
    IndexOfDistinct(GafFields, 11);
    IndexOfDistinct(GafFields, 12);
    IndexOfDistinct(GafFields, 13);
    IndexOfDistinct(GafFields, 14);
    IndexOfDistinct(GafFields, 15);
    IndexOfDistinct(GafFields, 16);
  }

  /** Where `list.index` finds each GAF 1.0 column name. */
  lemma Gaf1Positions()
    ensures IndexOf(Gaf1Fields, Db) == 0
    ensures IndexOf(Gaf1Fields, DbObjectId) == 1
    ensures IndexOf(Gaf1Fields, DbObjectSymbol) == 2
    ensures IndexOf(Gaf1Fields, Qualifier) == 3
    ensures IndexOf(Gaf1Fields, GoId) == 4
    ensures IndexOf(Gaf1Fields, DbReference) == 5
    ensures IndexOf(Gaf1Fields, EvidenceCode) == 6
    ensures IndexOf(Gaf1Fields, With) == 7
    ensures IndexOf(Gaf1Fields, Aspect) == 8
    ensures IndexOf(Gaf1Fields, DbObjectName) == 9
    ensures IndexOf(Gaf1Fields, DbObjectSynonym) == 10
    ensures IndexOf(Gaf1Fields, DbObjectType) == 11
    ensures IndexOf(Gaf1Fields, Taxon) == 12
    ensures IndexOf(Gaf1Fields, Date) == 13
    ensures IndexOf(Gaf1Fields, AssignedBy) == 14
  {
    assert Distinct(Gaf1Fields);
    IndexOfDistinct(Gaf1Fields, 0);
    IndexOfDistinct(Gaf1Fields, 1);
    IndexOfDistinct(Gaf1Fields, 2);
    IndexOfDistinct(Gaf1Fields, 3);
    IndexOfDistinct(Gaf1Fields, 4);
    IndexOfDistinct(Gaf1Fields, 5);
    IndexOfDistinct(Gaf1Fields, 6);
    IndexOfDistinct(Gaf1Fields, 7);
    IndexOfDistinct(Gaf1Fields, 8);
    IndexOfDistinct(Gaf1Fields, 9);
    IndexOfDistinct(Gaf1Fields, 10);
    IndexOfDistinct(Gaf1Fields, 11);
    IndexOfDistinct(Gaf1Fields, 12);
    IndexOfDistinct(Gaf1Fields, 13);
    IndexOfDistinct(Gaf1Fields, 14);
  }

  /** GAF 1.0 has no annotation extension column and no gene product form column. */
  lemma Gaf1Lacks()
    ensures IndexOf(Gaf1Fields, AnnotationExtension) == -1
    ensures IndexOf(Gaf1Fields, GeneProductFormId) == -1
  {
    IndexOfSpec(Gaf1Fields, AnnotationExtension);
    IndexOfSpec(Gaf1Fields, GeneProductFormId);
  }

  /**
   * The GAF schema chosen by `gaf._init` for a version string: GAF 1.0 when
   * the string contains "1." anywhere, GAF 2.0 for anything else.
   */
  function GafFieldsFor(version: string): (fields: seq<Column>)
    ensures |fields| == if Contains(version, "1.") then 15 else 17
    ensures fields[..15] == Gaf1Fields
    ensures !Contains(version, "1.") ==>
      fields[15] == AnnotationExtension && fields[16] == GeneProductFormId
  {
    if Contains(version, "1.") then Gaf1Fields else GafFields
  }

  /** Neither GAF schema repeats a column. */
  lemma GafSchemasDistinct()
    ensures Distinct(GafFields) && Distinct(Gaf1Fields)
  {
    assert Distinct(GafFields);
    assert Gaf1Fields == GafFields[..15];
  }

  /** Both GAF schemas start with the 15 GAF 1.0 columns, without repeats. */
  lemma GafFieldsForShape(version: string)
    ensures Distinct(GafFieldsFor(version))
    ensures forall name :: name in Gaf1Fields ==> name in GafFieldsFor(version)
  {
    var fields := GafFieldsFor(version);
    GafSchemasDistinct();
    forall name | name in Gaf1Fields
      ensures name in fields
    {
      var k :| 0 <= k < 15 && Gaf1Fields[k] == name;
      assert fields[k] == fields[..15][k];
    }
  }

  /**
   * The GPAD and GPI columns that no GAF schema has, and where the
   * annotation extension sits when the schema has one.
   */
  lemma GafLacksTargetColumns(version: string)
    ensures var fields := GafFieldsFor(version);
      AnnotationProperties !in fields && ParentObjectId !in fields && DbXref !in fields &&
      if |fields| > 15 then fields[15] == AnnotationExtension else AnnotationExtension !in fields
  {
    assert AnnotationProperties !in GafFields && AnnotationProperties !in Gaf1Fields;
    assert ParentObjectId !in GafFields && ParentObjectId !in Gaf1Fields;
    assert DbXref !in GafFields && DbXref !in Gaf1Fields;
    assert AnnotationExtension !in Gaf1Fields;
  }

  /** Every column of `row` that the schema names as required is non-empty. */
  predicate RequiredPresent(schema: seq<Column>, required: seq<Column>, row: seq<string>)
    requires |row| <= |schema|
  {
    forall k :: 0 <= k < |row| && schema[k] in required ==> row[k] != ""
  }

  /**
   * The validators' answer: 0 when every required column is filled, otherwise
   * one more than the first position whose column is required and empty.
   */
  function MissingField(schema: seq<Column>, required: seq<Column>, row: seq<string>): (m: nat)
    requires |row| <= |schema|
    ensures m == 0 <==> RequiredPresent(schema, required, row)
    ensures m > 0 ==> m <= |row| && schema[m - 1] in required && row[m - 1] == ""
    ensures m > 0 ==> RequiredPresent(schema, required, row[..m - 1])
    decreases |row|
  {
    if |row| == 0 then 0
    else
      var m := MissingField(schema, required, row[..|row| - 1]);
      assert row[..|row| - 1][..m] == row[..m] by { if m > 0 { } }
      if m > 0 then m
      else if schema[|row| - 1] in required && row[|row| - 1] == "" then |row|
      else 0
  }

  /**
   * The scan loop shared by `has_missing_fields`, `gpi_has_missing_fields` and
   * `gpad_has_missing_fields`: walk the row and stop at the first required
   * column that is empty.
   */
  method FirstMissingRequired(schema: seq<Column>, required: seq<Column>, row: seq<string>)
    returns (missing: nat)
    requires |row| <= |schema|
    ensures missing == MissingField(schema, required, row)
  {
    missing := 0;
    var i := 0;
    while i < |row|
      invariant 0 <= i <= |row|
      invariant RequiredPresent(schema, required, row[..i])
    {
      if schema[i] in required && row[i] == "" {
        missing := i + 1;
        break;
      }
      i := i + 1;
    }
    if missing == 0 {
      assert row[..i] == row;
    }
  }

  /** The GPAD positions of the columns GAF copies from GPAD without a named index. */
  lemma GpadCopiedPositions()
    ensures IndexOf(GpadFields, With) == 6
    ensures IndexOf(GpadFields, Date) == 8
    ensures IndexOf(GpadFields, AssignedBy) == 9
  {
    assert Distinct(GpadFields);
    IndexOfDistinct(GpadFields, 6);
    IndexOfDistinct(GpadFields, 8);
    IndexOfDistinct(GpadFields, 9);
  }

  /** A column GPAD does not have is found nowhere in it. */
  lemma NotGpadColumn(name: Column)
    requires name == DbObjectSymbol || name == DbObjectName || name == DbObjectSynonym || name == DbObjectType
    ensures IndexOf(GpadFields, name) == -1
  {
    assert name !in GpadFields;
    IndexOfSpec(GpadFields, name);
  }

  /** The four GPI-only columns GAF has do not occur in GPAD. */
  lemma GpadLacksGpiColumns()
    ensures IndexOf(GpadFields, DbObjectSymbol) == -1 && IndexOf(GpadFields, DbObjectName) == -1
    ensures IndexOf(GpadFields, DbObjectSynonym) == -1 && IndexOf(GpadFields, DbObjectType) == -1
  {
    NotGpadColumn(DbObjectSymbol);
    NotGpadColumn(DbObjectName);
    NotGpadColumn(DbObjectSynonym);
    NotGpadColumn(DbObjectType);
  }

  /**
   * Where the fill loop of `generateGaf` finds each GAF 1.0 column it may
   * fill: the GPAD position of the name, else its GPI position (-1 when the
   * schema does not have it).
   */
  lemma GafColumnSources()
    ensures IndexOf(GpadFields, DbObjectSymbol) == -1 && IndexOf(GpiFields, DbObjectSymbol) == 2
    ensures IndexOf(GpadFields, GoId) == 3
    ensures IndexOf(GpadFields, DbReference) == 4
    ensures IndexOf(GpadFields, With) == 6
    ensures IndexOf(GpadFields, DbObjectName) == -1 && IndexOf(GpiFields, DbObjectName) == 3
    ensures IndexOf(GpadFields, DbObjectSynonym) == -1 && IndexOf(GpiFields, DbObjectSynonym) == 4
    ensures IndexOf(GpadFields, DbObjectType) == -1 && IndexOf(GpiFields, DbObjectType) == 5
    ensures IndexOf(GpadFields, Date) == 8
    ensures IndexOf(GpadFields, AssignedBy) == 9
  {
    GpadPositions();
    GpiPositions();
    GpadCopiedPositions();
    GpadLacksGpiColumns();
  }

  /** The columns of a layout that starts with GAF 1.0's 15 columns, position by position. */
  lemma Gaf1Prefix(fields: seq<Column>)
    requires |fields| >= 15 && fields[..15] == Gaf1Fields
    ensures fields[0] == Db && fields[1] == DbObjectId && fields[2] == DbObjectSymbol && fields[3] == Qualifier
    ensures fields[4] == GoId && fields[5] == DbReference && fields[6] == EvidenceCode && fields[7] == With
    ensures fields[8] == Aspect && fields[9] == DbObjectName && fields[10] == DbObjectSynonym
    ensures fields[11] == DbObjectType && fields[12] == Taxon && fields[13] == Date && fields[14] == AssignedBy
  {
    var prefix := fields[..15];
    assert fields[0] == prefix[0] && fields[1] == prefix[1] && fields[2] == prefix[2] && fields[3] == prefix[3];
    assert fields[4] == prefix[4] && fields[5] == prefix[5] && fields[6] == prefix[6] && fields[7] == prefix[7];
    assert fields[8] == prefix[8] && fields[9] == prefix[9] && fields[10] == prefix[10];
    assert fields[11] == prefix[11] && fields[12] == prefix[12] && fields[13] == prefix[13] && fields[14] == prefix[14];
  }
}
