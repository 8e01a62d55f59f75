/**
 * The GPI writers of the MGI path of goa_parser.py: `writeGPI_MGI_row`, one
 * GPI row per mouse marker of the marker report, and `writeGPI_PROT_row`,
 * one GPI row per protein the GAF to GPAD conversion recorded in
 * `protein_map`. Both share one dictionary of displayed lines.
 *
 * `generateGPI_mgi` opens its report under the name `LOCAL_MGI_REPORT_FILE`,
 * which neither the parser nor `config` defines, so as written it raises
 * `NameError` before reading anything (see `Forward.GenerateGpiGpad`). The
 * pass below is the one it would run with the marker report's name.
 */
module Mgi {
  import opened Strings
  import opened Schema
  import opened Output

  /**
   * What the marker report gives for one MGI accession id: `mgi2symbol`,
   * `mgi2name` and `mgi2syn`, which are always filled together.
   */
  datatype Marker = Marker(symbol: string, name: string, synonym: string)

  /**
   * One column of `writeGPI_MGI_row`'s row: the marker-report column of the
   * same name, the taxon at GPI's taxon position, the DB at GPI's DB
   * position, and "" everywhere else.
   */
  function MarkerColumn(mrkRow: seq<string>, name: Column, i: int, taxon: string, db: string): string
    requires |mrkRow| == |MrkFields|
  {
    var j := IndexOf(MrkFields, name);
    if j >= 0 then mrkRow[j]
    else if i == GpiTaxonIndex then taxon
    else if i == GpiDbIndex then db
    else ""
  }

  /** The row `writeGPI_MGI_row` builds for the destination columns `target`. */
  function MarkerRow(mrkRow: seq<string>, target: seq<Column>, taxon: string, db: string): (out: seq<string>)
    requires |mrkRow| == |MrkFields|
    ensures |out| == |target|
    ensures forall i :: 0 <= i < |target| ==> out[i] == MarkerColumn(mrkRow, target[i], i, taxon, db)
    decreases |target|
  {
    if |target| == 0 then []
    else
      var n := |target| - 1;
      MarkerRow(mrkRow, target[..n], taxon, db) + [MarkerColumn(mrkRow, target[n], n, taxon, db)]
  }

  /**
   * The GPI row of a marker: the DB, the MGI id, symbol, name and synonyms
   * of the marker, its feature type (already mapped through `gpi_type`),
   * the taxon, and an empty parent and cross-reference.
   */
  lemma MarkerGpiRow(mrkRow: seq<string>, taxon: string, db: string)
    requires |mrkRow| == |MrkFields|
    ensures var out := MarkerRow(mrkRow, GpiFields, taxon, db);
      out[GpiDbIndex] == db && out[GpiObjectIndex] == mrkRow[MrkObjectIdIndex] &&
      out[GpiObjectSymbolIndex] == mrkRow[MrkObjectSymbolIndex] &&
      out[GpiObjectNameIndex] == mrkRow[MrkObjectNameIndex] &&
      out[GpiObjectSynonymIndex] == mrkRow[MrkObjectSynonymIndex] &&
      out[GpiObjectTypeIndex] == mrkRow[MrkFeatureTypeIndex] &&
      out[GpiTaxonIndex] == taxon && out[GpiParentIndex] == "" && out[8] == ""
  {
    MrkPositions();
    assert Db !in MrkFields && Taxon !in MrkFields && ParentObjectId !in MrkFields && DbXref !in MrkFields;
    IndexOfSpec(MrkFields, Db);
    IndexOfSpec(MrkFields, Taxon);
    IndexOfSpec(MrkFields, ParentObjectId);
    IndexOfSpec(MrkFields, DbXref);
  }

  /** `writeGPI_MGI_row`: build the marker's GPI row column by column and write it unless written before. */
  method WriteGpiMgiRow(mrkRow: seq<string>, sink: RowWriter, taxon: string, db: string)
    requires |mrkRow| == |MrkFields|
    modifies sink
    ensures sink.State() == Emit(old(sink.State()), Join(MarkerRow(mrkRow, GpiFields, taxon, db), "\t"))
  {
    var gpiRow: seq<string> := [];
    var i := 0;
    while i < |GpiFields|
      invariant 0 <= i <= |GpiFields|
      invariant gpiRow == MarkerRow(mrkRow, GpiFields[..i], taxon, db)
      invariant unchanged(sink)
    {
      var name := GpiFields[i];
      var cell: string;
      IndexOfSpec(MrkFields, name);
      if name in MrkFields {
        cell := mrkRow[IndexOf(MrkFields, name)];
      } else if i == GpiTaxonIndex {
        cell := taxon;
      } else if i == GpiDbIndex {
        cell := db;
      } else {
        cell := "";
      }
      assert GpiFields[..i + 1][..i] == GpiFields[..i];
      gpiRow := gpiRow + [cell];
      i := i + 1;
    }
    assert GpiFields[..i] == GpiFields;
    sink.Write(Join(gpiRow, "\t"));
  }

  /**
   * One column of `writeGPI_PROT_row`'s row for a protein: the protein's DB
   * and id, the symbol, name and synonyms of its gene's marker, the type
   * "protein", the taxon, the gene as parent, and "" for the cross-reference.
   */
  function ProteinColumn(i: int, protDb: string, proteinId: string, marker: Marker, taxon: string, db: string,
                         mgiId: string): string
  {
    if i == GpiDbIndex then protDb
    else if i == GpiObjectIndex then proteinId
    else if i == GpiObjectSymbolIndex then marker.symbol
    else if i == GpiObjectNameIndex then marker.name
    else if i == GpiObjectSynonymIndex then marker.synonym
    else if i == GpiObjectTypeIndex then "protein"
    else if i == GpiTaxonIndex then taxon
    else if i == GpiParentIndex then db + ":" + mgiId
    else ""
  }

  /**
   * The GPI row of a protein recorded under the form id `protein`: the DB is
   * the part before the first colon and the id only the part after it, up
   * to the next colon, as `protein.split(":")[1]` gives it.
   */
  function ProteinRow(protein: string, mgiId: string, marker: Marker, taxon: string, db: string): (out: seq<string>)
    requires ':' in protein
    ensures |out| == |GpiFields|
    ensures var parts := Split(protein, ':');
      |parts| >= 2 &&
      out == [parts[0], parts[1], marker.symbol, marker.name, marker.synonym, "protein", taxon, db + ":" + mgiId, ""]
  {
    SplitHasSeparator(protein, ':');
    var parts := Split(protein, ':');
    seq(|GpiFields|, i requires 0 <= i < |GpiFields| => ProteinColumn(i, parts[0], parts[1], marker, taxon, db, mgiId))
  }

  /**
   * A protein row names the protein the form id names when the form id has
   * a single colon: its DB and id, joined by a colon, give the form id back.
   */
  lemma ProteinRowNamesForm(protDb: string, proteinId: string, mgiId: string, marker: Marker, taxon: string, db: string)
    requires ':' !in protDb && ':' !in proteinId
    ensures var out := ProteinRow(protDb + ":" + proteinId, mgiId, marker, taxon, db);
      out[GpiDbIndex] == protDb && out[GpiObjectIndex] == proteinId
  {
    SplitCons(protDb, ':', proteinId);
    SplitNoSeparator(proteinId, ':');
  }

  /**
   * A form id with more than one colon loses everything after its second
   * colon: `PR:000012:x` gives the protein id `000012`.
   */
  lemma ProteinRowDropsTail(protDb: string, proteinId: string, rest: string, mgiId: string, marker: Marker,
                            taxon: string, db: string)
    requires ':' !in protDb && ':' !in proteinId
    ensures var out := ProteinRow(protDb + ":" + proteinId + ":" + rest, mgiId, marker, taxon, db);
      out[GpiDbIndex] == protDb && out[GpiObjectIndex] == proteinId
  {
    var form := protDb + ":" + proteinId + ":" + rest;
    assert form == protDb + [':'] + (proteinId + [':'] + rest);
    SplitCons(protDb, ':', proteinId + [':'] + rest);
    SplitCons(proteinId, ':', rest);
  }

  /** The loop of `writeGPI_PROT_row` that builds one protein's row. */
  method BuildProteinRow(protDb: string, proteinId: string, marker: Marker, taxon: string, db: string, mgiId: string)
    returns (gpiRow: seq<string>)
    ensures |gpiRow| == |GpiFields|
    ensures forall i :: 0 <= i < |GpiFields| ==> gpiRow[i] == ProteinColumn(i, protDb, proteinId, marker, taxon, db, mgiId)
  {
    gpiRow := [];
    var i := 0;
    while i < |GpiFields|
      invariant 0 <= i <= |GpiFields| && |gpiRow| == i
      invariant forall k :: 0 <= k < i ==> gpiRow[k] == ProteinColumn(k, protDb, proteinId, marker, taxon, db, mgiId)
    {
      var cell: string;
      if i == GpiDbIndex {
        cell := protDb;
      } else if i == GpiObjectIndex {
        cell := proteinId;
      } else if i == GpiObjectSymbolIndex {
        cell := marker.symbol;
      } else if i == GpiObjectNameIndex {
        cell := marker.name;
      } else if i == GpiObjectSynonymIndex {
        cell := marker.synonym;
      } else if i == GpiObjectTypeIndex {
        cell := "protein";
      } else if i == GpiTaxonIndex {
        cell := taxon;
      } else if i == GpiParentIndex {
        cell := db + ":" + mgiId;
      } else {
        cell := "";
      }
      gpiRow := gpiRow + [cell];
      i := i + 1;
    }
  }

  /** One pass of `writeGPI_PROT_row`'s loop: the protein's row is written when its gene has a marker. */
  method WriteProteinRow(proteins: map<string, string>, markers: map<string, Marker>, taxon: string, db: string,
                         protein: string, sink: RowWriter)
    requires protein in proteins && ':' in protein
    modifies sink
    ensures sink.State() == if proteins[protein] in markers
      then Emit(old(sink.State()), Join(ProteinRow(protein, proteins[protein], markers[proteins[protein]], taxon, db), "\t"))
      else old(sink.State())
  {
    var mgiId := proteins[protein];
    SplitHasSeparator(protein, ':');
    var fields := Split(protein, ':');
    var protDb, proteinId := fields[0], fields[1];
    if mgiId in markers {
      var gpiRow := BuildProteinRow(protDb, proteinId, markers[mgiId], taxon, db, mgiId);
      assert gpiRow == ProteinRow(protein, mgiId, markers[mgiId], taxon, db);
      sink.Write(Join(gpiRow, "\t"));
    }
  }

  /** The line written for a protein of the map whose gene has a marker. */
  function ProteinLine(proteins: map<string, string>, markers: map<string, Marker>, taxon: string, db: string,
                       protein: string): string
    requires protein in proteins && proteins[protein] in markers && ':' in protein
  {
    var mgiId := proteins[protein];
    Join(ProteinRow(protein, mgiId, markers[mgiId], taxon, db), "\t")
  }

  /** The lines for the proteins of `done` whose gene has a marker. */
  ghost function ProteinLines(proteins: map<string, string>, markers: map<string, Marker>, taxon: string, db: string,
                              done: set<string>): set<string>
    requires forall p :: p in proteins ==> ':' in p
    requires done <= proteins.Keys
  {
    set p | p in done && proteins[p] in markers :: ProteinLine(proteins, markers, taxon, db, p)
  }

  /**
   * `writeGPI_PROT_row`: every protein of the map, in an order the model
   * leaves open, whose gene has a marker gets its GPI row written unless
   * it was written before; the others are only logged.
   */
  method WriteGpiProtRows(proteins: map<string, string>, markers: map<string, Marker>, taxon: string, db: string,
                          sink: RowWriter)
    requires forall p :: p in proteins ==> ':' in p
    modifies sink
    ensures sink.displayed == old(sink.displayed) + ProteinLines(proteins, markers, taxon, db, proteins.Keys)
    ensures forall l :: l in sink.lines <==>
      l in old(sink.lines) || (l in ProteinLines(proteins, markers, taxon, db, proteins.Keys) && l !in old(sink.displayed))
    ensures |old(sink.lines)| <= |sink.lines| && sink.lines[..|old(sink.lines)|] == old(sink.lines)
    ensures Deduplicated(old(sink.State())) ==> Deduplicated(sink.State())
  {
    var remaining := proteins.Keys;
    ghost var done: set<string> := {};
    while remaining != {}
      invariant remaining + done == proteins.Keys && remaining !! done
      invariant sink.displayed == old(sink.displayed) + ProteinLines(proteins, markers, taxon, db, done)
      invariant forall l :: l in sink.lines <==>
        l in old(sink.lines) || (l in ProteinLines(proteins, markers, taxon, db, done) && l !in old(sink.displayed))
      invariant |old(sink.lines)| <= |sink.lines| && sink.lines[..|old(sink.lines)|] == old(sink.lines)
      invariant Deduplicated(old(sink.State())) ==> Deduplicated(sink.State())
      decreases remaining
    {
      var protein :| protein in remaining;
      ghost var before := ProteinLines(proteins, markers, taxon, db, done);
      remaining := remaining - {protein};
      done := done + {protein};
      ghost var lines0 := sink.lines;
      WriteProteinRow(proteins, markers, taxon, db, protein, sink);
      if proteins[protein] in markers {
        assert ProteinLines(proteins, markers, taxon, db, done) ==
          before + {ProteinLine(proteins, markers, taxon, db, protein)};
        assert sink.lines[..|old(sink.lines)|] == lines0[..|old(sink.lines)|];
      } else {
        assert ProteinLines(proteins, markers, taxon, db, done) == before;
      }
    }
  }

  /** The taxon and DB `generateGPI_mgi` writes for mouse genes and proteins. */
  const MgiTaxon := "taxon:10090"
  const MgiDb := "MGI"

  /**
   * A marker-report line that ends the program: `line[3]` raises
   * `IndexError` on a line of fewer than four cells, and a line that is not
   * the report's header but has the wrong number of cells raises `TypeError`
   * in its own log message, which adds a string to a list.
   */
  predicate Raises(line: seq<string>)
  {
    |line| < 4 || (!StartsWith(line[3], "genome") && |line| != |MrkFields|)
  }

  /** A marker row the pass reads: not the report's header, and as wide as the marker schema. */
  predicate Accepted(line: seq<string>)
  {
    |line| == |MrkFields| && !StartsWith(line[3], "genome")
  }

  /** An accepted marker row whose feature type is one of `gpi_type`'s, so that it gets a GPI row. */
  predicate Typed(line: seq<string>)
  {
    Accepted(line) && line[MrkFeatureTypeIndex] in GpiType
  }

  /** The line written for a typed marker row: its GPI row, with the feature type replaced by its GPI type. */
  function MarkerLine(line: seq<string>, taxon: string, db: string): string
    requires Typed(line)
  {
    Join(MarkerRow(line[MrkFeatureTypeIndex := GpiType[line[MrkFeatureTypeIndex]]], GpiFields, taxon, db), "\t")
  }

  /** The lines written for the typed rows of a marker report. */
  ghost function MarkerLines(lines: seq<seq<string>>, taxon: string, db: string): set<string>
  {
    set k | 0 <= k < |lines| && Typed(lines[k]) :: MarkerLine(lines[k], taxon, db)
  }

  /** Where the reading of the marker report stands: the GPI file, the markers read so far, and whether it raised. */
  datatype MarkerScan = MarkerScan(sink: Sink, markers: map<string, Marker>, stopped: bool)

  /**
   * One line of the marker report in `generateGPI_mgi`: the header row is
   * skipped, an accepted row records its marker under its MGI id and, when
   * its feature type has a GPI type, has its GPI row written; a line that
   * raises ends the pass and nothing after it is read.
   */
  function MarkerStep(scan: MarkerScan, line: seq<string>, taxon: string, db: string): (r: MarkerScan)
    ensures scan.stopped ==> r == scan
    ensures r.stopped <==> scan.stopped || Raises(line)
  {
    if scan.stopped then scan
    else if Raises(line) then scan.(stopped := true)
    else if !Accepted(line) then scan
    else
      var marker := Marker(line[MrkObjectSymbolIndex], line[MrkObjectNameIndex], line[MrkObjectSynonymIndex]);
      var sink := if Typed(line) then Emit(scan.sink, MarkerLine(line, taxon, db)) else scan.sink;
      MarkerScan(sink, scan.markers[line[MrkObjectIdIndex] := marker], false)
  }

  /** The reading of the lines of a marker report, one `MarkerStep` each. */
  function MarkerRun(scan: MarkerScan, lines: seq<seq<string>>, taxon: string, db: string): MarkerScan
    decreases |lines|
  {
    if |lines| == 0 then scan
    else MarkerStep(MarkerRun(scan, lines[..|lines| - 1], taxon, db), lines[|lines| - 1], taxon, db)
  }

  /** Reading a marker report raises exactly when one of its lines raises. */
  lemma {:induction false} MarkerRunRaises(scan: MarkerScan, lines: seq<seq<string>>, taxon: string, db: string)
    requires !scan.stopped
    ensures MarkerRun(scan, lines, taxon, db).stopped <==> exists k :: 0 <= k < |lines| && Raises(lines[k])
    decreases |lines|
  {
    if |lines| > 0 {
      var n := |lines| - 1;
      var front := lines[..n];
      MarkerRunRaises(scan, front, taxon, db);
      if exists k :: 0 <= k < n && Raises(front[k]) {
        var k :| 0 <= k < n && Raises(front[k]);
        assert Raises(lines[k]);
      }
      if exists k :: 0 <= k < |lines| && Raises(lines[k]) {
        var k :| 0 <= k < |lines| && Raises(lines[k]);
        if k < n {
          assert Raises(front[k]);
        }
      }
    }
  }

  /** A pass that has not raised has read a marker for exactly the MGI ids of its accepted rows. */
  lemma {:induction false} MarkerRunMarkers(scan: MarkerScan, lines: seq<seq<string>>, taxon: string, db: string)
    requires !MarkerRun(scan, lines, taxon, db).stopped
    ensures forall id :: id in MarkerRun(scan, lines, taxon, db).markers <==>
      id in scan.markers || exists k :: 0 <= k < |lines| && Accepted(lines[k]) && lines[k][MrkObjectIdIndex] == id
    decreases |lines|
  {
    if |lines| > 0 {
      var n := |lines| - 1;
      var front := lines[..n];
      MarkerRunMarkers(scan, front, taxon, db);
      forall id
        ensures id in MarkerRun(scan, lines, taxon, db).markers <==>
          id in scan.markers || exists k :: 0 <= k < |lines| && Accepted(lines[k]) && lines[k][MrkObjectIdIndex] == id
      {
        if exists k :: 0 <= k < n && Accepted(front[k]) && front[k][MrkObjectIdIndex] == id {
          var k :| 0 <= k < n && Accepted(front[k]) && front[k][MrkObjectIdIndex] == id;
          assert lines[k] == front[k];
        }
        if exists k :: 0 <= k < |lines| && Accepted(lines[k]) && lines[k][MrkObjectIdIndex] == id {
          var k :| 0 <= k < |lines| && Accepted(lines[k]) && lines[k][MrkObjectIdIndex] == id;
          if k < n {
            assert lines[k] == front[k];
          }
        }
      }
    }
  }

  /**
   * A pass that has not raised has added to the dictionary exactly the lines
   * of the typed rows, and the file only grew.
   */
  lemma {:induction false} MarkerRunWrites(scan: MarkerScan, lines: seq<seq<string>>, taxon: string, db: string)
    requires !MarkerRun(scan, lines, taxon, db).stopped
    ensures var r := MarkerRun(scan, lines, taxon, db);
      r.sink.displayed == scan.sink.displayed + MarkerLines(lines, taxon, db) &&
      |scan.sink.lines| <= |r.sink.lines| && r.sink.lines[..|scan.sink.lines|] == scan.sink.lines
    decreases |lines|
  {
    if |lines| > 0 {
      var n := |lines| - 1;
      var front := lines[..n];
      MarkerRunWrites(scan, front, taxon, db);
      assert forall k :: 0 <= k < n ==> lines[k] == front[k];
      if Typed(lines[n]) {
        assert MarkerLines(lines, taxon, db) == MarkerLines(front, taxon, db) + {MarkerLine(lines[n], taxon, db)};
      } else {
        assert MarkerLines(lines, taxon, db) == MarkerLines(front, taxon, db);
      }
    }
  }

  /**
   * The marker read for an MGI id is the one of the last accepted row with
   * that id: a later row for the same gene overwrites the earlier one.
   */
  lemma {:induction false} LastMarkerWins(scan: MarkerScan, lines: seq<seq<string>>, taxon: string, db: string, j: int)
    requires !MarkerRun(scan, lines, taxon, db).stopped
    requires 0 <= j < |lines| && Accepted(lines[j])
    requires forall k :: j < k < |lines| && Accepted(lines[k]) ==>
      lines[k][MrkObjectIdIndex] != lines[j][MrkObjectIdIndex]
    ensures var line := lines[j];
      line[MrkObjectIdIndex] in MarkerRun(scan, lines, taxon, db).markers &&
      MarkerRun(scan, lines, taxon, db).markers[line[MrkObjectIdIndex]] ==
        Marker(line[MrkObjectSymbolIndex], line[MrkObjectNameIndex], line[MrkObjectSynonymIndex])
    decreases |lines|
  {
    var n := |lines| - 1;
    if j < n {
      var front := lines[..n];
      assert forall k :: j < k < n && Accepted(front[k]) ==>
        front[k][MrkObjectIdIndex] != front[j][MrkObjectIdIndex] by {
        forall k | j < k < n && Accepted(front[k])
          ensures front[k][MrkObjectIdIndex] != front[j][MrkObjectIdIndex]
        {
          assert front[k] == lines[k];
        }
      }
      LastMarkerWins(scan, front, taxon, db, j);
    }
  }

  /** A pass that has raised stays as it is for the rest of the report. */
  lemma {:induction false} StoppedScanStays(scan: MarkerScan, lines: seq<seq<string>>, taxon: string, db: string, i: nat)
    requires i <= |lines| && MarkerRun(scan, lines[..i], taxon, db).stopped
    ensures MarkerRun(scan, lines, taxon, db) == MarkerRun(scan, lines[..i], taxon, db)
    decreases |lines|
  {
    if i == |lines| {
      assert lines[..i] == lines;
    } else {
      var front := lines[..|lines| - 1];
      assert front[..i] == lines[..i];
      StoppedScanStays(scan, front, taxon, db, i);
    }
  }

  /** `writeGPI_PROT_row`'s effect on a file: the protein lines not yet displayed are appended. */
  ghost predicate ProteinsWritten(before: Sink, after: Sink, written: set<string>)
  {
    after.displayed == before.displayed + written &&
    (forall l :: l in after.lines <==> l in before.lines || (l in written && l !in before.displayed)) &&
    |before.lines| <= |after.lines| && after.lines[..|before.lines|] == before.lines
  }

  /**
   * What `generateGPI_mgi` leaves in the GPI file that held `before`: a
   * fresh dictionary, the marker report read line by line, then, unless a
   * line raised, the protein rows of `protein_map`.
   */
  ghost predicate MgiPass(before: seq<string>, mrkLines: seq<seq<string>>, proteins: map<string, string>,
                          after: Sink, markers: map<string, Marker>, stopped: bool)
  {
    (forall p :: p in proteins ==> ':' in p) &&
    var scan := MarkerRun(MarkerScan(Sink({}, before), map[], false), mrkLines, MgiTaxon, MgiDb);
    markers == scan.markers && stopped == scan.stopped &&
    if stopped then after == scan.sink
    else ProteinsWritten(scan.sink, after, ProteinLines(proteins, markers, MgiTaxon, MgiDb, proteins.Keys))
  }

  /** One pass of `generateGPI_mgi`'s loop over the marker report. */
  method ReadMarkerLine(line: seq<string>, markers: map<string, Marker>, taxon: string, db: string, sink: RowWriter)
    returns (markers': map<string, Marker>, stopped: bool)
    modifies sink
    ensures MarkerScan(sink.State(), markers', stopped) ==
      MarkerStep(MarkerScan(old(sink.State()), markers, false), line, taxon, db)
  {
    markers', stopped := markers, false;
    if |line| < 4 {
      stopped := true;
    } else if !StartsWith(line[3], "genome") {
      if |line| != |MrkFields| {
        stopped := true;
      } else {
        var mgiId := line[MrkObjectIdIndex];
        markers' := markers[mgiId := Marker(line[MrkObjectSymbolIndex], line[MrkObjectNameIndex], line[MrkObjectSynonymIndex])];
        var ftype := line[MrkFeatureTypeIndex];
        if ftype in GpiType {
          WriteGpiMgiRow(line[MrkFeatureTypeIndex := GpiType[ftype]], sink, taxon, db);
        }
      }
    }
  }

  /**
   * `generateGPI_mgi` with the marker report given as its rows: a new
   * dictionary of displayed lines on the GPI file, the report read until
   * its end or the first line that raises, then the protein rows.
   */
  method GenerateGpiMgi(mrkLines: seq<seq<string>>, proteins: map<string, string>, gpi: RowWriter)
    returns (markers: map<string, Marker>, stopped: bool)
    requires forall p :: p in proteins ==> ':' in p
    modifies gpi
    ensures MgiPass(old(gpi.lines), mrkLines, proteins, gpi.State(), markers, stopped)
  {
    gpi.displayed := {};
    ghost var start := MarkerScan(gpi.State(), map[], false);
    markers, stopped := map[], false;
    var i := 0;
    while i < |mrkLines| && !stopped
      invariant 0 <= i <= |mrkLines|
      invariant MarkerScan(gpi.State(), markers, stopped) == MarkerRun(start, mrkLines[..i], MgiTaxon, MgiDb)
    {
      markers, stopped := ReadMarkerLine(mrkLines[i], markers, MgiTaxon, MgiDb, gpi);
      assert mrkLines[..i + 1][..i] == mrkLines[..i];
      i := i + 1;
    }
    if stopped {
      StoppedScanStays(start, mrkLines, MgiTaxon, MgiDb, i);
    } else {
      assert mrkLines[..i] == mrkLines;
      WriteGpiProtRows(proteins, markers, MgiTaxon, MgiDb, gpi);
    }
  }

  /**
   * When no line raises, the MGI pass writes exactly one line per typed
   * marker row and per protein whose gene has a marker, each once, after
   * what the file already held; the markers are those of the accepted rows.
   */
  lemma MgiPassLines(before: seq<string>, mrkLines: seq<seq<string>>, proteins: map<string, string>,
                     after: Sink, markers: map<string, Marker>)
    requires MgiPass(before, mrkLines, proteins, after, markers, false)
    ensures after.displayed ==
      MarkerLines(mrkLines, MgiTaxon, MgiDb) + ProteinLines(proteins, markers, MgiTaxon, MgiDb, proteins.Keys)
    ensures forall id :: id in markers <==>
      exists k :: 0 <= k < |mrkLines| && Accepted(mrkLines[k]) && mrkLines[k][MrkObjectIdIndex] == id
    ensures |before| <= |after.lines| && after.lines[..|before|] == before
    ensures forall k :: 0 <= k < |mrkLines| ==> !Raises(mrkLines[k])
  {
    var start := MarkerScan(Sink({}, before), map[], false);
    MarkerRunRaises(start, mrkLines, MgiTaxon, MgiDb);
    MarkerRunMarkers(start, mrkLines, MgiTaxon, MgiDb);
    MarkerRunWrites(start, mrkLines, MgiTaxon, MgiDb);
  }
}
