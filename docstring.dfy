/**
 * Docstring extraction (src/extension.ts: `getDocString`): the lines after a
 * declaration are scanned for a `"""` or `'''` block. The file's text is an
 * input; reading it is not modelled.
 *
 * The scan only ever looks at trimmed lines, so the specification is written
 * over `TrimAll(lines)`: `t[k]` below is the trimmed text of line `k`.
 */
module DocString {
  import opened Wrappers
  import opened Strings

  const TripleDouble: string := "\"\"\""
  const TripleSingle: string := "'''"

  /** The delimiter a trimmed line opens with, `"""` taking precedence. */
  function OpeningDelimiter(line: string): (r: Option<string>)
    ensures r.Some? ==> (r.value == TripleDouble || r.value == TripleSingle) && StartsWith(line, r.value)
    ensures r.None? <==> !StartsWith(line, TripleDouble) && !StartsWith(line, TripleSingle)
  {
    if StartsWith(line, TripleDouble) then Some(TripleDouble)
    else if StartsWith(line, TripleSingle) then Some(TripleSingle)
    else None
  }

  /** The first index from `i` on holding a non-empty line, or `max(i, |t|)` when there is none. */
  function NextNonBlank(t: seq<string>, i: nat): (j: nat)
    ensures i <= j
    ensures j < |t| ==> t[j] != ""
    ensures j >= |t| ==> j == (if i <= |t| then |t| else i)
    ensures forall k :: i <= k < j ==> t[k] == ""
    decreases |t| - i
  {
    if i >= |t| then i
    else if t[i] == "" then NextNonBlank(t, i + 1)
    else i
  }

  /** The text of an opening line after its delimiter, trimmed. */
  function AfterOpen(line: string, d: string): string
    requires |d| <= |line|
  {
    Trim(line[|d|..])
  }

  /** The text of a one-line docstring between its delimiters, trimmed. */
  function Between(line: string, d: string): string
    requires |d| * 2 <= |line|
  {
    Trim(line[|d|..|line| - |d|])
  }

  /** The text of a closing line before its delimiter, trimmed. */
  function BeforeClose(line: string, d: string): string
    requires EndsWith(line, d)
  {
    Trim(line[..|line| - |d|])
  }

  /**
   * The lines a block collects once opened with `d`: each line in turn,
   * until one ends with `d`, of which only the text before `d` is kept; or
   * every remaining line when none closes the block.
   */
  function BlockLines(t: seq<string>, i: nat, d: string): seq<string>
    decreases |t| - i
  {
    if i >= |t| then []
    else if EndsWith(t[i], d) then [BeforeClose(t[i], d)]
    else [t[i]] + BlockLines(t, i + 1, d)
  }

  /** A one-line docstring: the delimiter, at least one character, the delimiter. */
  predicate IsOneLiner(line: string, d: string) {
    |line| > |d| * 2 && EndsWith(line, d)
  }

  /**
   * The lines of a block opened at line `j` with `d`: the opening line's
   * text after `d`, trimmed, then the block's further lines.
   */
  function BlockOf(t: seq<string>, j: nat, d: string): seq<string>
    requires j < |t| && |d| <= |t[j]|
  {
    [AfterOpen(t[j], d)] + BlockLines(t, j + 1, d)
  }

  /**
   * The docstring found in the trimmed lines `t` scanning from index `start`,
   * or None. There is one exactly when the first non-blank line opens with a
   * triple quote.
   */
  function DocFrom(t: seq<string>, start: nat): (r: Option<string>)
    ensures r.Some? <==> NextNonBlank(t, start) < |t| && OpeningDelimiter(t[NextNonBlank(t, start)]).Some?
  {
    var j := NextNonBlank(t, start);
    if j >= |t| then None
    else
      match OpeningDelimiter(t[j])
      case None => None
      case Some(d) =>
        if IsOneLiner(t[j], d) then Some(Between(t[j], d))
        else Some(Trim(Join(BlockOf(t, j, d), "\n")))
  }

  /**
   * `getDocString(filePath, symbolLine)` over the file's text: the lines are
   * split as `/\r?\n/` splits them and scanned from the line after the
   * declaration.
   */
  method GetDocString(content: string, symbolLine: nat) returns (r: Option<string>)
    ensures r == DocFrom(TrimAll(SplitLines(content)), symbolLine + 1)
  {
    var lines := SplitLines(content);
    r := ScanDocString(lines, symbolLine);
  }

  /** The state of the scan: still looking for the opening line, or inside a block. */
  datatype ScanState = Searching | InBlock(delimiter: string, collected: seq<string>)

  /**
   * What the scan returns when it resumes at line `i` in state `s`: the loop
   * of `getDocString` read as a recursive function over the file's lines.
   * Once a block holds a line, the scan ends with a docstring, closed or not.
   */
  function ScanFrom(lines: seq<string>, i: nat, s: ScanState): (r: Option<string>)
    ensures s.InBlock? && |s.collected| > 0 ==> r.Some?
    decreases |lines| - i
  {
    if i >= |lines| then
      (if s.InBlock? && |s.collected| > 0 then Some(Trim(Join(s.collected, "\n"))) else None)
    else
      var line := Trim(lines[i]);
      match s
      case Searching =>
        if line == "" then ScanFrom(lines, i + 1, s)
        else (match OpeningDelimiter(line)
          case None => None
          case Some(d) =>
            if IsOneLiner(line, d) then Some(Between(line, d))
            else ScanFrom(lines, i + 1, InBlock(d, [AfterOpen(line, d)])))
      case InBlock(d, c) =>
        if EndsWith(line, d) then Some(Trim(Join(c + [BeforeClose(line, d)], "\n")))
        else ScanFrom(lines, i + 1, InBlock(d, c + [line]))
  }

  /**
   * The loop of `getDocString` over the file's lines, with its `docStarted`,
   * `delimiter` and `docLines` state.
   */
  method ScanDocString(lines: seq<string>, symbolLine: nat) returns (r: Option<string>)
    ensures r == DocFrom(TrimAll(lines), symbolLine + 1)
  {
    ghost var outcome := ScanFrom(lines, symbolLine + 1, Searching);
    ScanIsDocFrom(lines, symbolLine + 1);
    var docStarted := false;
    var docLines: seq<string> := [];
    var delimiter := "";
    var i := symbolLine + 1;
    while i < |lines|
      invariant !docStarted ==> docLines == []
      invariant !docStarted ==> outcome == ScanFrom(lines, i, Searching)
      invariant docStarted ==> outcome == ScanFrom(lines, i, InBlock(delimiter, docLines))
      decreases |lines| - i
    {
      var line := Trim(lines[i]);
      if !docStarted && line == "" {
        i := i + 1;
        continue;
      }
      if !docStarted {
        if StartsWith(line, TripleDouble) || StartsWith(line, TripleSingle) {
          docStarted := true;
          delimiter := if StartsWith(line, TripleDouble) then TripleDouble else TripleSingle;
          assert OpeningDelimiter(line) == Some(delimiter);
          if |line| > |delimiter| * 2 && EndsWith(line, delimiter) {
            return Some(Between(line, delimiter));
          }
          assert !IsOneLiner(line, delimiter);
          assert outcome == ScanFrom(lines, i + 1, InBlock(delimiter, [AfterOpen(line, delimiter)]));
          docLines := docLines + [AfterOpen(line, delimiter)];
          assert docLines == [AfterOpen(line, delimiter)];
        } else {
          break;
        }
      } else {
        if EndsWith(line, delimiter) {
          docLines := docLines + [BeforeClose(line, delimiter)];
          break;
        } else {
          assert outcome == ScanFrom(lines, i + 1, InBlock(delimiter, docLines + [line]));
          docLines := docLines + [line];
        }
      }
      i := i + 1;
    }
    if |docLines| > 0 {
      return Some(Trim(Join(docLines, "\n")));
    }
    return None;
  }

  /** Once a block is open, the scan joins what it collected with the block's further lines. */
  lemma {:induction false} ScanBlock(lines: seq<string>, i: nat, d: string, c: seq<string>)
    requires |c| > 0
    ensures ScanFrom(lines, i, InBlock(d, c)) == Some(Trim(Join(c + BlockLines(TrimAll(lines), i, d), "\n")))
    decreases |lines| - i
  {
    var t := TrimAll(lines);
    if i >= |lines| {
      assert c + [] == c;
    } else {
      TrimAllAt(lines, i);
      if !EndsWith(t[i], d) {
        ScanBlock(lines, i + 1, d, c + [t[i]]);
        AppendAssociative(c, [t[i]], BlockLines(t, i + 1, d));
      }
    }
  }

  /** The loop computes the docstring as `DocFrom` defines it. */
  lemma {:induction false} ScanIsDocFrom(lines: seq<string>, i: nat)
    ensures ScanFrom(lines, i, Searching) == DocFrom(TrimAll(lines), i)
    decreases |lines| - i
  {
    if i < |lines| {
      TrimAllAt(lines, i);
      if Trim(lines[i]) == "" {
        ScanIsDocFrom(lines, i + 1);
      } else {
        ScanOpening(lines, i);
      }
    }
  }

  /** From the first non-blank line on, the scan and `DocFrom` agree. */
  lemma ScanOpening(lines: seq<string>, i: nat)
    requires i < |lines| && Trim(lines[i]) != ""
    ensures ScanFrom(lines, i, Searching) == DocFrom(TrimAll(lines), i)
  {
    var t := TrimAll(lines);
    TrimAllAt(lines, i);
    assert NextNonBlank(t, i) == i;
    match OpeningDelimiter(t[i])
    case None =>
    case Some(d) =>
      if !IsOneLiner(t[i], d) {
        ScanBlock(lines, i + 1, d, [AfterOpen(t[i], d)]);
      }
  }

  lemma DocFromBlock(t: seq<string>, start: nat, j: nat, d: string)
    requires NextNonBlank(t, start) == j < |t|
    requires OpeningDelimiter(t[j]) == Some(d) && !IsOneLiner(t[j], d)
    ensures DocFrom(t, start) == Some(Trim(Join(BlockOf(t, j, d), "\n")))
  {
  }

  // ----- Properties -----

  /** Blank lines from `start` up to `j` are skipped. */
  lemma {:induction false} SkipBlankLines(t: seq<string>, start: nat, j: nat)
    requires start <= j < |t| && t[j] != ""
    requires forall k :: start <= k < j ==> t[k] == ""
    ensures NextNonBlank(t, start) == j
    decreases j - start
  {
    if start < j {
      SkipBlankLines(t, start + 1, j);
    }
  }

  /**
   * A block opened with `d` ends at the first later line that ends with `d`;
   * the lines before it are collected whole, including lines that end with
   * the other delimiter.
   */
  lemma {:induction false} BlockLinesUntilClose(t: seq<string>, i: nat, m: nat, d: string)
    requires i <= m < |t|
    requires forall k :: i <= k < m ==> !EndsWith(t[k], d)
    requires EndsWith(t[m], d)
    ensures BlockLines(t, i, d) == t[i..m] + [BeforeClose(t[m], d)]
    decreases m - i
  {
    if i < m {
      BlockLinesUntilClose(t, i + 1, m, d);
      SliceCons(t, i, m);
      AppendAssociative([t[i]], t[i + 1..m], [BeforeClose(t[m], d)]);
    }
  }

  /** A block that is never closed collects every remaining line. */
  lemma {:induction false} BlockLinesUnterminated(t: seq<string>, i: nat, d: string)
    requires i <= |t|
    requires forall k :: i <= k < |t| ==> !EndsWith(t[k], d)
    ensures BlockLines(t, i, d) == t[i..]
    decreases |t| - i
  {
    if i < |t| {
      BlockLinesUnterminated(t, i + 1, d);
      SuffixCons(t, i);
    }
  }

  /** A line that ends with `'''` does not end with `"""`: only the opening delimiter closes a block. */
  lemma DelimitersDiffer(line: string)
    requires EndsWith(line, TripleSingle)
    ensures !EndsWith(line, TripleDouble)
  {
    assert line[|line| - 1] == '\'';
  }

  /**
   * A one-line docstring `"""summary"""` or `'''summary'''` after blank lines
   * yields the trimmed summary, and no later line is read.
   */
  lemma DocStringSummary(t: seq<string>, start: nat, j: nat, d: string, summary: string)
    requires start <= j < |t|
    requires forall k :: start <= k < j ==> t[k] == ""
    requires d == TripleDouble || d == TripleSingle
    requires summary != [] && t[j] == d + summary + d
    ensures DocFrom(t, start) == Some(Trim(summary))
    ensures DocFrom(t[..j + 1], start) == Some(Trim(summary))
  {
    var line := d + summary + d;
    assert line[..|d|] == d && line[|line| - |d|..] == d && line[|d|..|line| - |d|] == summary;
    assert OpeningDelimiter(line) == Some(d) by {
      if d == TripleSingle {
        assert line[0] == '\'';
        assert !StartsWith(line, TripleDouble);
      }
    }
    SkipBlankLines(t, start, j);
    var prefix := t[..j + 1];
    assert forall k :: start <= k <= j ==> prefix[k] == t[k];
    SkipBlankLines(prefix, start, j);
  }

  /**
   * Blank lines are skipped; when the first non-blank line does not open with
   * `"""` or `'''`, or there is none, the result is None.
   */
  lemma DocStringNotOpened(t: seq<string>, start: nat, j: nat)
    requires start <= j <= |t|
    requires forall k :: start <= k < j ==> t[k] == ""
    requires j < |t| ==> t[j] != "" && OpeningDelimiter(t[j]).None?
    ensures DocFrom(t, start) == None
  {
    if j < |t| {
      SkipBlankLines(t, start, j);
    } else {
      assert NextNonBlank(t, start) >= |t|;
    }
  }

  /**
   * A block opened at line `j` with delimiter `d` and closed at line `m`: the
   * opening line's remainder, the lines between, and the closing line's text
   * before `d`, joined with line feeds and trimmed.
   */
  lemma DocStringBlock(t: seq<string>, start: nat, j: nat, m: nat, d: string)
    requires start <= j < m < |t|
    requires forall k :: start <= k < j ==> t[k] == ""
    requires t[j] != "" && OpeningDelimiter(t[j]) == Some(d) && !IsOneLiner(t[j], d)
    requires forall k :: j < k < m ==> !EndsWith(t[k], d)
    requires EndsWith(t[m], d)
    ensures DocFrom(t, start)
         == Some(Trim(Join([AfterOpen(t[j], d)] + t[j + 1..m] + [BeforeClose(t[m], d)], "\n")))
  {
    SkipBlankLines(t, start, j);
    DocFromBlock(t, start, j, d);
    BlockLinesUntilClose(t, j + 1, m, d);
    AppendAssociative([AfterOpen(t[j], d)], t[j + 1..m], [BeforeClose(t[m], d)]);
    assert BlockOf(t, j, d) == [AfterOpen(t[j], d)] + t[j + 1..m] + [BeforeClose(t[m], d)];
  }

  /** A block that the file never closes yields the lines accumulated up to the end. */
  lemma DocStringUnterminated(t: seq<string>, start: nat, j: nat, d: string)
    requires start <= j < |t|
    requires forall k :: start <= k < j ==> t[k] == ""
    requires t[j] != "" && OpeningDelimiter(t[j]) == Some(d) && !IsOneLiner(t[j], d)
    requires forall k :: j < k < |t| ==> !EndsWith(t[k], d)
    ensures DocFrom(t, start) == Some(Trim(Join([AfterOpen(t[j], d)] + t[j + 1..], "\n")))
  {
    SkipBlankLines(t, start, j);
    DocFromBlock(t, start, j, d);
    BlockLinesUnterminated(t, j + 1, d);
    assert BlockOf(t, j, d) == [AfterOpen(t[j], d)] + t[j + 1..];
  }

  /**
   * An empty one-line docstring `""""""` is not a one-liner (it is not longer
   * than two delimiters): it opens a block whose first line is `"""`.
   */
  lemma EmptyOneLinerOpensBlock(t: seq<string>, start: nat, j: nat)
    requires start <= j < |t|
    requires forall k :: start <= k < j ==> t[k] == ""
    requires t[j] == TripleDouble + TripleDouble
    ensures DocFrom(t, start) == Some(Trim(Join([TripleDouble] + BlockLines(t, j + 1, TripleDouble), "\n")))
  {
    var line := TripleDouble + TripleDouble;
    assert line[..3] == TripleDouble && line[3..] == TripleDouble;
    SkipBlankLines(t, start, j);
    assert OpeningDelimiter(t[j]) == Some(TripleDouble);
    assert !IsOneLiner(t[j], TripleDouble);
    DocFromBlock(t, start, j, TripleDouble);
    assert Trim(TripleDouble) == TripleDouble;
    assert BlockOf(t, j, TripleDouble) == [TripleDouble] + BlockLines(t, j + 1, TripleDouble);
  }
}
