/**
 * The duplicate filter shared by the row writers of goa_parser.py
 * (`writeGP_row`, `writeGPI_MGI_row`, `writeGPI_PROT_row`): a dictionary of
 * the lines already written, used as a set, and the output file, seen as the
 * sequence of row lines written to it (the header written before the first
 * row is not part of this model). `generateGaf` writes its rows without
 * such a dictionary; its file is a `LineWriter`.
 */
module Output {
  import opened Strings

  /** The dictionary of displayed lines and the lines of the file, in the order written. */
  datatype Sink = Sink(displayed: set<string>, lines: seq<string>)

  /** A fresh `*_row_displayed` dictionary and a file with no rows yet. */
  const Fresh := Sink({}, [])

  /** The dictionary holds exactly the lines of the file, and no line is in the file twice. */
  ghost predicate Deduplicated(s: Sink)
  {
    (forall l :: l in s.displayed <==> l in s.lines) && Distinct(s.lines)
  }

  /**
   * One pass through `if not line in displayed: displayed[line]=1; write(line)`:
   * the line is in the dictionary afterwards, and it reaches the file exactly
   * when it was not there before.
   */
  function Emit(s: Sink, line: string): (s': Sink)
    ensures s'.displayed == s.displayed + {line}
    ensures s'.lines == if line in s.displayed then s.lines else s.lines + [line]
    ensures Deduplicated(s) ==> Deduplicated(s')
  {
    if line in s.displayed then s
    else
      var s' := Sink(s.displayed + {line}, s.lines + [line]);
      assert forall i :: 0 <= i < |s.lines| ==> s'.lines[i] == s.lines[i];
      s'
  }

  /** Writing a line a second time changes nothing. */
  lemma EmitIdempotent(s: Sink, line: string)
    ensures Emit(Emit(s, line), line) == Emit(s, line)
  {
  }

  /** The writer after each of `lines` has been offered to it, in order. */
  function EmitAll(s: Sink, lines: seq<string>): Sink
    decreases |lines|
  {
    if |lines| == 0 then s else EmitAll(Emit(s, lines[0]), lines[1..])
  }

  /**
   * Offering a list of lines to a fresh writer writes each distinct line of
   * the list exactly once, and nothing else.
   */
  lemma {:induction false} EmitAllWritesEachOnce(s: Sink, lines: seq<string>)
    requires Deduplicated(s)
    ensures Deduplicated(EmitAll(s, lines))
    ensures forall l :: l in EmitAll(s, lines).lines <==> l in s.lines || l in lines
    decreases |lines|
  {
    if |lines| > 0 {
      EmitAllWritesEachOnce(Emit(s, lines[0]), lines[1..]);
      assert lines == [lines[0]] + lines[1..];
    }
  }

  /** The written lines of a writer only grow: a line once written stays in the file. */
  lemma {:induction false} EmitAllGrows(s: Sink, lines: seq<string>)
    ensures s.displayed <= EmitAll(s, lines).displayed
    ensures |s.lines| <= |EmitAll(s, lines).lines| && EmitAll(s, lines).lines[..|s.lines|] == s.lines
    decreases |lines|
  {
    if |lines| > 0 {
      var s1 := Emit(s, lines[0]);
      EmitAllGrows(s1, lines[1..]);
      var r := EmitAll(s1, lines[1..]);
      assert r.lines[..|s.lines|] == r.lines[..|s1.lines|][..|s.lines|];
    }
  }

  /** An output file and its dictionary of displayed lines, updated in place by the writers. */
  class RowWriter {
    var displayed: set<string>
    var lines: seq<string>

    function State(): Sink
      reads this
    {
      Sink(displayed, lines)
    }

    /** A new dictionary `{}` and a file with no rows. */
    constructor()
      ensures State() == Fresh
    {
      displayed := {};
      lines := [];
    }

    /** The dictionary test, insert and write that end every row writer. */
    method Write(line: string)
      modifies this
      ensures State() == Emit(old(State()), line)
    {
      if line !in displayed {
        displayed := displayed + {line};
        lines := lines + [line];
      }
    }
  }

  /** An output file written without a dictionary of displayed lines: every line reaches it. */
  class LineWriter {
    var lines: seq<string>

    /** A file with no rows. */
    constructor()
      ensures lines == []
    {
      lines := [];
    }

    /** `fh.write(line + "\n")`. */
    method Write(line: string)
      modifies this
      ensures lines == old(lines) + [line]
    {
      lines := lines + [line];
    }
  }
}
