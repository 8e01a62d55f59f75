/**
 * The header readers of the converters: `getGaf_version` and
 * `getGFile_header` read a file from the top while its lines, stripped,
 * start with "!" and stop at the first line that does not. The file is the
 * sequence of its lines.
 */
module Headers {
  import opened Strings
  import opened Schema

  /** A header line: after `strip()` it starts with "!". */
  predicate IsHeaderLine(line: string)
  {
    StartsWith(Strip(line), "!")
  }

  /** The number of header lines at the top of the file. */
  function HeaderLength(lines: seq<string>): (n: nat)
    ensures n <= |lines|
    ensures forall k :: 0 <= k < n ==> IsHeaderLine(lines[k])
    ensures n < |lines| ==> !IsHeaderLine(lines[n])
    decreases |lines|
  {
    if |lines| == 0 || !IsHeaderLine(lines[0]) then 0 else 1 + HeaderLength(lines[1..])
  }

  const VersionTag := "gaf-version:"

  /** The version after reading `header`: the last line holding the tag, stripped, with the tag taken out; "" when none does. */
  function VersionAfter(header: seq<string>): string
    decreases |header|
  {
    if |header| == 0 then ""
    else
      var line := Strip(header[|header| - 1]);
      if Contains(line, VersionTag) then Replace(line, VersionTag, "") else VersionAfter(header[..|header| - 1])
  }

  /** What `getGaf_version` returns for a file. */
  function GafVersion(lines: seq<string>): string
  {
    VersionAfter(lines[..HeaderLength(lines)])
  }

  /** `getGaf_version`: scan the header lines, each one holding the tag replacing the version found so far. */
  method GetGafVersion(lines: seq<string>) returns (version: string)
    ensures version == GafVersion(lines)
  {
    version := "";
    var i := 0;
    while i < |lines|
      invariant 0 <= i <= HeaderLength(lines)
      invariant version == VersionAfter(lines[..i])
    {
      var line := Strip(lines[i]);
      if StartsWith(line, "!") {
        if Contains(line, VersionTag) {
          version := Replace(line, VersionTag, "");
        }
      } else {
        break;
      }
      assert lines[..i + 1][..i] == lines[..i];
      i := i + 1;
    }
    assert i == HeaderLength(lines);
  }

  /** What `getGFile_header` appends to its list: the header lines, stripped. */
  function GFileHeader(lines: seq<string>): (header: seq<string>)
    ensures |header| == HeaderLength(lines)
    ensures forall k :: 0 <= k < |header| ==> header[k] == Strip(lines[k])
  {
    seq(HeaderLength(lines), k requires 0 <= k < HeaderLength(lines) => Strip(lines[k]))
  }

  /** `getGFile_header`: append each stripped header line to `header`. */
  method GetGFileHeader(lines: seq<string>, header: seq<string>) returns (header': seq<string>)
    ensures header' == header + GFileHeader(lines)
  {
    header' := header;
    var i := 0;
    while i < |lines|
      invariant 0 <= i <= HeaderLength(lines)
      invariant header' == header + GFileHeader(lines)[..i]
    {
      var line := Strip(lines[i]);
      if StartsWith(line, "!") {
        header' := header' + [line];
      } else {
        break;
      }
      i := i + 1;
    }
    assert GFileHeader(lines)[..i] == GFileHeader(lines);
  }

  // ---------------------------------------------------------------- properties

  /** Every collected header line is stripped and starts with "!". */
  lemma HeaderLinesMarked(lines: seq<string>)
    ensures forall k :: 0 <= k < |GFileHeader(lines)| ==>
      StartsWith(GFileHeader(lines)[k], "!") && Strip(GFileHeader(lines)[k]) == GFileHeader(lines)[k]
  {
    forall k | 0 <= k < |GFileHeader(lines)|
      ensures Strip(GFileHeader(lines)[k]) == GFileHeader(lines)[k]
    {
      StripIdempotent(lines[k]);
    }
  }

  /** The two readers see the same lines: the version is the one found in the collected header. */
  lemma {:induction false} VersionFromCollectedHeader(lines: seq<string>, n: nat)
    requires n <= HeaderLength(lines)
    ensures VersionAfter(lines[..n]) == VersionAfter(GFileHeader(lines)[..n])
  {
    if n > 0 {
      VersionFromCollectedHeader(lines, n - 1);
      assert lines[..n][..n - 1] == lines[..n - 1];
      assert GFileHeader(lines)[..n][..n - 1] == GFileHeader(lines)[..n - 1];
      StripIdempotent(lines[n - 1]);
    }
  }

  /** The version comes from the last header line holding the tag. */
  lemma {:induction false} LastVersionLineWins(lines: seq<string>, n: nat, k: nat)
    requires k < n <= |lines|
    requires Contains(Strip(lines[k]), VersionTag)
    requires forall j :: k < j < n ==> !Contains(Strip(lines[j]), VersionTag)
    ensures VersionAfter(lines[..n]) == Replace(Strip(lines[k]), VersionTag, "")
  {
    assert lines[..n][n - 1] == lines[n - 1];
    assert lines[..n][..n - 1] == lines[..n - 1];
    if k < n - 1 {
      LastVersionLineWins(lines, n - 1, k);
    }
  }

  /** Without a header line holding the tag the version is "". */
  lemma {:induction false} NoVersionLine(lines: seq<string>, n: nat)
    requires n <= |lines|
    requires forall j :: 0 <= j < n ==> !Contains(Strip(lines[j]), VersionTag)
    ensures VersionAfter(lines[..n]) == ""
  {
    if n > 0 {
      assert lines[..n][n - 1] == lines[n - 1];
      assert lines[..n][..n - 1] == lines[..n - 1];
      NoVersionLine(lines, n - 1);
    }
  }

  /** Taking the tag out of a line that starts with "!" keeps the "!". */
  lemma ReplaceKeepsBang(line: string)
    requires StartsWith(line, "!")
    ensures StartsWith(Replace(line, VersionTag, ""), "!")
  {
    assert line[0] == '!' && VersionTag[0] == 'g';
    assert !StartsWith(line, VersionTag);
  }

  /** A version read from the first `n` header lines, one of which holds the tag, keeps the leading "!" of its line. */
  lemma {:induction false} VersionKeepsBang(lines: seq<string>, n: nat, k: nat)
    requires k < n <= HeaderLength(lines) && Contains(Strip(lines[k]), VersionTag)
    ensures StartsWith(VersionAfter(lines[..n]), "!")
  {
    assert lines[..n][n - 1] == lines[n - 1];
    if Contains(Strip(lines[n - 1]), VersionTag) {
      ReplaceKeepsBang(Strip(lines[n - 1]));
    } else {
      assert lines[..n][..n - 1] == lines[..n - 1];
      VersionKeepsBang(lines, n - 1, k);
    }
  }
}
