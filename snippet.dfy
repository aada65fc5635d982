/**
 * The "copy as Hydra" direction (src/extension.ts, `copyTargetAsHydra`):
 * a workspace-relative file path becomes a dotted module path, and the
 * symbol's parameters become a Hydra YAML snippet. Computing the relative
 * path, reading the file and the clipboard are not modelled: the relative
 * path and the parameter list are inputs.
 */
module Snippet {
  import opened Wrappers
  import opened Strings
  import PathResolver

  const PySuffix: string := ".py"
  const TargetLinePrefix: string := "_target_: "
  const NoParameters: string := "# No parameters detected..."

  /** `s.replace(/\.py$/, '')`: a trailing `.py` is removed. */
  function StripPySuffix(s: string): (r: string)
    ensures EndsWith(s, PySuffix) ==> r + PySuffix == s
    ensures !EndsWith(s, PySuffix) ==> r == s
  {
    if EndsWith(s, PySuffix) then s[..|s| - |PySuffix|] else s
  }

  /**
   * The dotted module path of a relative file path: backslashes become
   * slashes, a trailing `.py` is dropped, and the slash-separated pieces are
   * joined with dots.
   */
  function ModulePath(relativePath: string): (r: string)
    ensures r == ReplaceChar(StripPySuffix(ReplaceChar(relativePath, '\\', '/')), '/', '.')
  {
    var stripped := StripPySuffix(ReplaceChar(relativePath, '\\', '/'));
    JoinSplitReplaces(stripped, '/', '.');
    Join(Split(stripped, '/'), ".")
  }

  /**
   * `${modulePath}.${symbolName}`: read back as a dotted path, its segments
   * are those of the module path followed by the symbol name.
   */
  function FullDottedPath(relativePath: string, symbolName: string): (r: string)
    ensures '.' !in symbolName ==> Split(r, '.') == Split(ModulePath(relativePath), '.') + [symbolName]
  {
    var modulePath := ModulePath(relativePath);
    assert '.' !in symbolName ==> Split(modulePath + "." + symbolName, '.') == Split(modulePath, '.') + [symbolName] by {
      if '.' !in symbolName {
        assert modulePath + "." + symbolName == modulePath + ['.'] + symbolName;
        SplitAround(modulePath, '.', symbolName);
        SplitNoSeparator(symbolName, '.');
      }
    }
    modulePath + "." + symbolName
  }

  /** The line the snippet holds for one parameter. */
  function ParamLine(param: string): string {
    param + ": "
  }

  /** What the `forEach` appends for the parameters, one `<param>: ` line each, in order. */
  function ParamLines(parameters: seq<string>): string
    decreases |parameters|
  {
    if |parameters| == 0 then ""
    else ParamLines(parameters[..|parameters| - 1]) + ParamLine(parameters[|parameters| - 1]) + "\n"
  }

  /** The snippet text: the `_target_` line, then the parameter lines or the no-parameters line. */
  function SnippetText(fullDottedPath: string, parameters: seq<string>): string {
    TargetLinePrefix + fullDottedPath + "\n"
      + (if |parameters| > 0 then ParamLines(parameters) else NoParameters + "\n")
  }

  /** The snippet's lines, as the YAML reader sees them. */
  function SnippetLines(fullDottedPath: string, parameters: seq<string>): seq<string> {
    [TargetLinePrefix + fullDottedPath]
      + (if |parameters| > 0 then seq(|parameters|, i requires 0 <= i < |parameters| => ParamLine(parameters[i]))
         else [NoParameters])
  }

  /** The snippet built by `snippet +=` over the parameters. */
  method BuildSnippet(fullDottedPath: string, parameters: seq<string>) returns (snippet: string)
    ensures snippet == SnippetText(fullDottedPath, parameters)
  {
    snippet := TargetLinePrefix + fullDottedPath + "\n";
    if |parameters| > 0 {
      var k := 0;
      while k < |parameters|
        invariant 0 <= k <= |parameters|
        invariant snippet == TargetLinePrefix + fullDottedPath + "\n" + ParamLines(parameters[..k])
      {
        assert parameters[..k + 1][..k] == parameters[..k];
        snippet := snippet + ParamLine(parameters[k]) + "\n";
        k := k + 1;
      }
      assert parameters[..k] == parameters;
    } else {
      snippet := snippet + NoParameters + "\n";
    }
  }

  /** The module-path and snippet construction of `copyTargetAsHydra`. */
  method CopyAsHydra(relativePath: string, symbolName: string, parameters: seq<string>) returns (snippet: string)
    ensures snippet == SnippetText(FullDottedPath(relativePath, symbolName), parameters)
  {
    var modulePath := ModulePath(relativePath);
    var fullDottedPath := modulePath + "." + symbolName;
    snippet := BuildSnippet(fullDottedPath, parameters);
  }

  // ----- Properties -----

  /** The module path holds no path separator: every slash and backslash became a dot. */
  lemma ModulePathReplacesSeparators(relativePath: string)
    ensures '/' !in ModulePath(relativePath) && '\\' !in ModulePath(relativePath)
  {
    var s := ReplaceChar(relativePath, '\\', '/');
    var stripped := StripPySuffix(s);
    assert '\\' !in s;
    assert '\\' !in stripped by {
      if EndsWith(s, PySuffix) {
        assert stripped == s[..|s| - |PySuffix|];
      }
    }
    var m := ReplaceChar(stripped, '/', '.');
    assert forall i :: 0 <= i < |m| ==> m[i] != '/' && m[i] != '\\';
  }

  /** A header line followed by the parameter lines is the join of those lines, plus a final line feed. */
  lemma {:induction false} ParamLinesJoin(header: string, parameters: seq<string>)
    ensures header + "\n" + ParamLines(parameters)
         == Join([header] + seq(|parameters|, i requires 0 <= i < |parameters| => ParamLine(parameters[i])), "\n") + "\n"
    decreases |parameters|
  {
    var lines := seq(|parameters|, i requires 0 <= i < |parameters| => ParamLine(parameters[i]));
    if |parameters| == 0 {
      assert [header] + lines == [header];
    } else {
      var n := |parameters| - 1;
      var front := parameters[..n];
      var frontLines := seq(|front|, i requires 0 <= i < |front| => ParamLine(front[i]));
      ParamLinesJoin(header, front);
      assert lines == frontLines + [ParamLine(parameters[n])];
      assert [header] + lines == ([header] + frontLines) + [ParamLine(parameters[n])];
      JoinAppendOne([header] + frontLines, ParamLine(parameters[n]), "\n");
      var j := Join([header] + frontLines, "\n");
      AppendAssociative(header + "\n", ParamLines(front), ParamLine(parameters[n]) + "\n");
      AppendAssociative(j + "\n", ParamLine(parameters[n]), "\n");
      AppendAssociative(ParamLines(front), ParamLine(parameters[n]), "\n");
    }
  }

  /**
   * Read line by line, the snippet is its `_target_` line, then one
   * `<param>: ` line per parameter in order (or the no-parameters line when
   * there are none), each ended by a line feed.
   */
  lemma SnippetLineStructure(fullDottedPath: string, parameters: seq<string>)
    requires '\n' !in fullDottedPath
    requires forall i :: 0 <= i < |parameters| ==> '\n' !in parameters[i]
    ensures Split(SnippetText(fullDottedPath, parameters), '\n') == SnippetLines(fullDottedPath, parameters) + [""]
  {
    var header := TargetLinePrefix + fullDottedPath;
    var lines := SnippetLines(fullDottedPath, parameters);
    assert SnippetText(fullDottedPath, parameters) == Join(lines, "\n") + "\n" by {
      if |parameters| > 0 {
        ParamLinesJoin(header, parameters);
      } else {
        assert lines == [header, NoParameters];
      }
    }
    JoinAppendOne(lines, "", "\n");
    assert Join(lines, "\n") + "\n" + "" == Join(lines, "\n") + "\n";
    assert forall i :: 0 <= i < |lines| ==> '\n' !in lines[i];
    assert forall i :: 0 <= i < |lines + [""]| ==> '\n' !in (lines + [""])[i];
    SplitJoin(lines + [""], '\n');
  }

  /**
   * Round trip with the forward resolver: a relative path made of
   * separator-free, dot-free segments ending in `.py` gives a dotted path
   * that resolves back to the same file under the workspace root.
   */
  lemma DottedPathRoundTrip(root: string, segments: seq<string>, symbolName: string, existing: set<string>)
    requires root != "" && |segments| >= 1
    requires forall i :: 0 <= i < |segments| ==>
      segments[i] != "" && '.' !in segments[i] && '/' !in segments[i] && '\\' !in segments[i]
    requires '.' !in symbolName
    ensures var file := root + "/" + Join(segments, "/") + PySuffix;
      PathResolver.PythonPathToFilePath(FullDottedPath(Join(segments, "/") + PySuffix, symbolName), Some(root), existing)
        == if file in existing then Some(file) else None
  {
    var rel := Join(segments, "/");
    var relativePath := rel + PySuffix;
    JoinOmits(segments, "/", '\\');
    assert '\\' !in relativePath;
    ReplaceCharAbsent(relativePath, '\\', '/');
    assert relativePath[..|relativePath| - |PySuffix|] == rel;
    assert StripPySuffix(relativePath) == rel;
    SplitJoin(segments, '/');
    assert ModulePath(relativePath) == Join(segments, ".");
    PathResolver.ModulePartsOfQualified(Join(segments, "."), symbolName);
    SplitJoin(segments, '.');
    PathResolver.ModuleFileOfPlainSegments(root, segments);
  }
}
