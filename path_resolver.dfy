/**
 * Resolving a dotted Python path to a module file in the workspace, and
 * locating a symbol's declaration line in that file (src/utils.ts).
 * The file system is an input: the set of paths that exist, and the text of
 * the file that is read.
 */
module PathResolver {
  import opened Wrappers
  import opened Strings

  /** The non-empty segments, in order. */
  function NonEmptySegments(segments: seq<string>): (r: seq<string>)
    ensures |r| <= |segments|
    ensures forall i :: 0 <= i < |r| ==> r[i] != ""
    ensures (forall i :: 0 <= i < |segments| ==> segments[i] != "") ==> r == segments
  {
    if |segments| == 0 then []
    else if segments[0] == "" then NonEmptySegments(segments[1..])
    else [segments[0]] + NonEmptySegments(segments[1..])
  }

  /**
   * `path.join(...segments)` without normalisation: the non-empty segments
   * joined by `/`, or `.` when every segment is empty.
   */
  function JoinPath(segments: seq<string>): (r: string)
    ensures r != ""
    ensures |segments| >= 1 && (forall i :: 0 <= i < |segments| ==> segments[i] != "") ==> r == Join(segments, "/")
  {
    var kept := NonEmptySegments(segments);
    if |kept| == 0 then "." else Join(kept, "/")
  }

  /** The file that the module segments name under `root`: `<root>/<m1>/.../<mk>.py`. */
  function ModuleFile(root: string, moduleParts: seq<string>): (r: string)
    ensures root != "" ==> r == root + "/" + JoinPath(moduleParts) + ".py"
  {
    var file := JoinPath(moduleParts) + ".py";
    assert root != "" ==> JoinPath([root, file]) == root + "/" + file by {
      if root != "" {
        JoinPathPair(root, file);
      }
    }
    JoinPath([root, file])
  }

  /** The dotted path names a symbol inside a module: it has at least two segments. */
  predicate IsQualified(pyPath: string) {
    |Split(pyPath, '.')| >= 2
  }

  /** All segments of a qualified dotted path but the last (the symbol name). */
  function ModuleParts(pyPath: string): (r: seq<string>)
    requires IsQualified(pyPath)
    ensures |r| >= 1
  {
    var parts := Split(pyPath, '.');
    parts[..|parts| - 1]
  }

  /**
   * `pythonPathToFilePath`: `workspace` is the workspace folder's path, if
   * any, and `existing` the set of paths for which the existence check succeeds.
   */
  function PythonPathToFilePath(pyPath: string, workspace: Option<string>, existing: set<string>): (r: Option<string>)
    ensures workspace.None? ==> r.None?
    ensures '.' !in pyPath ==> r.None?
    ensures r.Some? ==> r.value in existing
    ensures r.Some? <==>
      workspace.Some? && IsQualified(pyPath) && ModuleFile(workspace.value, ModuleParts(pyPath)) in existing
    ensures r.Some? ==> r.value == ModuleFile(workspace.value, ModuleParts(pyPath))
  {
    SplitSingle(pyPath, '.');
    if workspace.None? then None
    else
      var parts := Split(pyPath, '.');
      if |parts| < 2 then None
      else
        var fullPath := ModuleFile(workspace.value, ModuleParts(pyPath));
        if fullPath in existing then Some(fullPath) else None
  }

  /** A qualified path's module segments are those of its text before the last dot. */
  lemma ModulePartsOfQualified(modulePath: string, symbol: string)
    requires '.' !in symbol
    ensures IsQualified(modulePath + "." + symbol)
    ensures ModuleParts(modulePath + "." + symbol) == Split(modulePath, '.')
  {
    SplitAround(modulePath, '.', symbol);
    SplitNoSeparator(symbol, '.');
    assert modulePath + "." + symbol == modulePath + ['.'] + symbol;
  }

  /** The symbol name never affects the resolved file. */
  lemma SymbolDoesNotAffectFile(modulePath: string, symbol1: string, symbol2: string,
                                workspace: Option<string>, existing: set<string>)
    requires '.' !in symbol1 && '.' !in symbol2
    ensures PythonPathToFilePath(modulePath + "." + symbol1, workspace, existing)
         == PythonPathToFilePath(modulePath + "." + symbol2, workspace, existing)
  {
    ModulePartsOfQualified(modulePath, symbol1);
    ModulePartsOfQualified(modulePath, symbol2);
  }

  /** When the module segments are all non-empty, the file is the plain `/`-join of them plus `.py`. */
  lemma ModuleFileOfPlainSegments(root: string, moduleParts: seq<string>)
    requires root != "" && |moduleParts| >= 1
    requires forall i :: 0 <= i < |moduleParts| ==> moduleParts[i] != ""
    ensures ModuleFile(root, moduleParts) == root + "/" + Join(moduleParts, "/") + ".py"
  {
    assert JoinPath(moduleParts) == Join(moduleParts, "/");
  }

  lemma JoinPathPair(a: string, b: string)
    requires a != "" && b != ""
    ensures JoinPath([a, b]) == a + "/" + b
  {
    assert [a, b][1..] == [b];
    assert NonEmptySegments([b]) == [b];
    assert NonEmptySegments([a, b]) == [a, b];
    assert Join([b], "/") == b;
  }

  /** Exactly the non-empty segments are kept, in order: the filter distributes over concatenation. */
  lemma {:induction false} NonEmptySegmentsAppend(a: seq<string>, b: seq<string>)
    ensures NonEmptySegments(a + b) == NonEmptySegments(a) + NonEmptySegments(b)
  {
    if |a| == 0 {
      assert a + b == b;
    } else {
      assert (a + b)[1..] == a[1..] + b;
      NonEmptySegmentsAppend(a[1..], b);
    }
  }

  /** A single segment is kept exactly when it is non-empty. */
  lemma NonEmptySegmentsSingle(x: string)
    ensures NonEmptySegments([x]) == if x == "" then [] else [x]
  {
    assert [x][1..] == [];
  }

  // ----- Declaration line -----

  /** The trimmed line starts with `class <name>` or `def <name>`. */
  predicate IsDefinitionOf(line: string, name: string) {
    var t := Trim(line);
    StartsWith(t, "class " + name) || StartsWith(t, "def " + name)
  }

  /**
   * `findSymbolDefinitionLine` over the file's text: the zero-based index of
   * the first line declaring `symbolName`, or 0 when no line does.
   */
  method FindSymbolDefinitionLine(content: string, symbolName: string) returns (line: nat)
    ensures line < |SplitLines(content)|
    ensures forall j :: 0 <= j < line ==> !IsDefinitionOf(SplitLines(content)[j], symbolName)
    ensures IsDefinitionOf(SplitLines(content)[line], symbolName)
         || (line == 0 && forall j :: 0 <= j < |SplitLines(content)| ==> !IsDefinitionOf(SplitLines(content)[j], symbolName))
  {
    var lines := SplitLines(content);
    line := FindDefinitionLine(lines, symbolName);
  }

  /** The loop of `findSymbolDefinitionLine` over the file's lines. */
  method FindDefinitionLine(lines: seq<string>, symbolName: string) returns (line: nat)
    requires |lines| >= 1
    ensures line < |lines|
    ensures forall j :: 0 <= j < line ==> !IsDefinitionOf(lines[j], symbolName)
    ensures IsDefinitionOf(lines[line], symbolName)
         || (line == 0 && forall j :: 0 <= j < |lines| ==> !IsDefinitionOf(lines[j], symbolName))
  {
    var i := 0;
    while i < |lines|
      invariant 0 <= i <= |lines|
      invariant forall j :: 0 <= j < i ==> !IsDefinitionOf(lines[j], symbolName)
    {
      var trimmed := Trim(lines[i]);
      if StartsWith(trimmed, "class " + symbolName) || StartsWith(trimmed, "def " + symbolName) {
        return i;
      }
      i := i + 1;
    }
    return 0;
  }

  /** Matching is a prefix test: a declaration of `name + more` also counts as one of `name`. */
  lemma DefinitionPrefix(line: string, name: string, more: string)
    requires IsDefinitionOf(line, name + more)
    ensures IsDefinitionOf(line, name)
  {
    var t := Trim(line);
    assert "class " + (name + more) == "class " + name + more;
    assert "def " + (name + more) == "def " + name + more;
    if StartsWith(t, "class " + (name + more)) {
      StartsWithShorter(t, "class " + name, more);
    } else {
      StartsWithShorter(t, "def " + name, more);
    }
  }

  lemma StartsWithShorter(t: string, p: string, q: string)
    requires StartsWith(t, p + q)
    ensures StartsWith(t, p)
  {
    assert t[..|p|] == (p + q)[..|p|];
  }
}
