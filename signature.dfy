/**
 * Parameter-name extraction (src/extension.ts: `processParams` and
 * `extractSignature`). The two regular expressions of `extractSignature` are
 * written out as leftmost-match searches over the file text, with the
 * symbol name matched as literal text and the backtracking of `\s+` that
 * lets the name begin with white space.
 */
module Signature {
  import opened Wrappers
  import opened Strings

  // ----- processParams -----

  /** The trimmed tokens that `processParams` drops: empty, `self` and `cls`. */
  predicate IsDropped(token: string) {
    token == "" || token == "self" || token == "cls"
  }

  /** The text before the first `c`, or all of `s` when there is none. */
  function Before(s: string, c: char): (r: string)
    ensures c !in r
    ensures StartsWith(s, r)
    ensures c !in s ==> r == s
    ensures c in s ==> s[|r|] == c
  {
    var k := IndexOf(s, c);
    if k == -1 then s else s[..k]
  }

  /**
   * One kept parameter: the default value (from the first `=`) and then the
   * annotation (from the first `:`) are cut off, re-trimming after each cut.
   */
  function StripParam(p: string): (r: string)
    ensures '=' !in r && ':' !in r
    ensures '=' !in p && ':' !in p ==> r == p
    ensures IsTrimmed(p) ==> r == Trim(Before(Trim(Before(p, '=')), ':'))
    ensures IsTrimmed(p) ==> IsTrimmed(r)
  {
    var eqIndex := IndexOf(p, '=');
    var p1 := if eqIndex != -1 then Trim(p[..eqIndex]) else p;
    assert '=' !in p1 by {
      if eqIndex != -1 { TrimOmits(p[..eqIndex], '='); }
    }
    var colonIndex := IndexOf(p1, ':');
    var r := if colonIndex != -1 then Trim(p1[..colonIndex]) else p1;
    assert '=' !in r && ':' !in r by {
      if colonIndex != -1 {
        assert '=' !in p1[..colonIndex];
        TrimOmits(p1[..colonIndex], '=');
        TrimOmits(p1[..colonIndex], ':');
      }
    }
    r
  }

  /** The tokens that survive the filter of src/extension.ts:250, in their order: not empty, not `self`, not `cls`. */
  function KeepParams(tokens: seq<string>): (r: seq<string>)
    ensures |r| <= |tokens|
    ensures forall i :: 0 <= i < |r| ==> !IsDropped(r[i]) && r[i] in tokens
  {
    if |tokens| == 0 then []
    else if IsDropped(tokens[0]) then KeepParams(tokens[1..])
    else [tokens[0]] + KeepParams(tokens[1..])
  }

  /** `.map(...)` with the cutting of defaults and annotations. */
  function StripAll(params: seq<string>): (r: seq<string>)
    ensures |r| == |params|
    ensures forall i :: 0 <= i < |r| ==> r[i] == StripParam(params[i])
  {
    if |params| == 0 then [] else [StripParam(params[0])] + StripAll(params[1..])
  }

  /** `processParams(paramStr)`: the parameter names of a parameter list. */
  function ProcessParams(paramStr: string): (r: seq<string>)
    ensures |r| <= |Split(paramStr, ',')|
    ensures forall i :: 0 <= i < |r| ==> '=' !in r[i] && ':' !in r[i]
  {
    StripAll(KeepParams(TrimAll(Split(paramStr, ','))))
  }

  lemma {:induction false} TrimAllAppend(a: seq<string>, b: seq<string>)
    ensures TrimAll(a + b) == TrimAll(a) + TrimAll(b)
  {
    if |a| == 0 {
      assert a + b == b;
    } else {
      assert (a + b)[1..] == a[1..] + b;
      TrimAllAppend(a[1..], b);
    }
  }

  lemma {:induction false} KeepParamsAppend(a: seq<string>, b: seq<string>)
    ensures KeepParams(a + b) == KeepParams(a) + KeepParams(b)
  {
    if |a| == 0 {
      assert a + b == b;
    } else {
      assert (a + b)[1..] == a[1..] + b;
      KeepParamsAppend(a[1..], b);
    }
  }

  lemma {:induction false} StripAllAppend(a: seq<string>, b: seq<string>)
    ensures StripAll(a + b) == StripAll(a) + StripAll(b)
  {
    if |a| == 0 {
      assert a + b == b;
    } else {
      assert (a + b)[1..] == a[1..] + b;
      StripAllAppend(a[1..], b);
    }
  }

  /**
   * Tokens are processed independently and in order: the names of
   * `a + "," + b` are those of `a` followed by those of `b`.
   */
  lemma ProcessParamsConcat(a: string, b: string)
    ensures ProcessParams(a + "," + b) == ProcessParams(a) + ProcessParams(b)
  {
    assert a + "," + b == a + [','] + b;
    SplitAround(a, ',', b);
    TrimAllAppend(Split(a, ','), Split(b, ','));
    KeepParamsAppend(TrimAll(Split(a, ',')), TrimAll(Split(b, ',')));
    StripAllAppend(KeepParams(TrimAll(Split(a, ','))), KeepParams(TrimAll(Split(b, ','))));
  }

  /**
   * A single token: dropped exactly when its trimmed text is empty, `self`
   * or `cls` (the whole token, so `self: int` is kept), otherwise it yields
   * exactly one name.
   */
  lemma ProcessParamsToken(token: string)
    requires ',' !in token
    ensures ProcessParams(token) == if IsDropped(Trim(token)) then [] else [StripParam(Trim(token))]
  {
    SplitNoSeparator(token, ',');
    assert TrimAll([token]) == [Trim(token)];
  }

  /** The empty parameter list has no names. */
  lemma ProcessParamsEmpty()
    ensures ProcessParams("") == []
  {
    ProcessParamsToken("");
  }

  /** A plain identifier: one or more characters of `[A-Za-z_0-9]`. */
  predicate IsName(s: string) {
    |s| > 0 && forall i :: 0 <= i < |s| ==> IsWordChar(s[i])
  }

  lemma NameIsTrimmed(name: string)
    requires IsName(name)
    ensures Trim(name) == name && '=' !in name && ':' !in name && ',' !in name
  {
    assert !IsSpace(name[0]) && !IsSpace(name[|name| - 1]);
    assert forall i :: 0 <= i < |name| ==> name[i] != '=' && name[i] != ':' && name[i] != ',';
  }

  /** Trimming text that starts and ends inside `p` with non-blank characters keeps `p` in front. */
  lemma {:induction false} TrimKeepsPrefix(p: string, rest: string)
    requires |p| > 0 && !IsSpace(p[0]) && !IsSpace(p[|p| - 1])
    ensures StartsWith(Trim(p + rest), p)
    decreases |rest|
  {
    var s := p + rest;
    assert s[0] == p[0] && s[..|p|] == p;
    if |rest| > 0 && IsSpace(rest[|rest| - 1]) {
      assert s[|s| - 1] == rest[|rest| - 1];
      assert s[..|s| - 1] == p + rest[..|rest| - 1];
      TrimKeepsPrefix(p, rest[..|rest| - 1]);
    } else {
      assert s[|s| - 1] == if |rest| > 0 then rest[|rest| - 1] else p[|p| - 1];
    }
  }

  /** `Before` cuts at the first occurrence. */
  lemma BeforeFirst(s: string, c: char, k: nat)
    requires k < |s| && s[k] == c && c !in s[..k]
    ensures Before(s, c) == s[..k]
  {
    var r := Before(s, c);
    assert s[..|r|] == r;
    assert forall i :: 0 <= i < k ==> s[..k][i] == s[i];
  }

  /** `Before` never cuts inside a prefix that lacks the character. */
  lemma BeforeKeeps(s: string, c: char, k: nat)
    requires k <= |s| && c !in s[..k]
    ensures StartsWith(Before(s, c), s[..k])
  {
    var r := Before(s, c);
    assert s[..|r|] == r;
    assert forall i :: 0 <= i < k ==> s[..k][i] == s[i];
    assert r[..k] == s[..k];
  }

  /** A name followed by `=` or `:` and anything else is stripped down to the name. */
  lemma StripParamOfName(name: string, c: char, rest: string)
    requires IsName(name) && (c == '=' || c == ':')
    requires IsTrimmed(name + [c] + rest)
    ensures StripParam(name + [c] + rest) == name
  {
    NameIsTrimmed(name);
    var p := name + [c] + rest;
    assert p[..|name|] == name && p[|name|] == c;
    var q := Before(p, '=');
    if c == '=' {
      BeforeFirst(p, '=', |name|);
      assert Before(q, ':') == name;
    } else {
      assert p[..|name| + 1] == name + [c];
      BeforeKeeps(p, '=', |name| + 1);
      assert q == name + [c] + q[|name| + 1..];
      TrimKeepsPrefix(name + [c], q[|name| + 1..]);
      var q1 := Trim(q);
      assert q1[..|name| + 1] == name + [c];
      assert q1[..|name|] == name && q1[|name|] == c;
      BeforeFirst(q1, ':', |name|);
    }
  }

  /** A leading blank is trimmed away. */
  lemma TrimLeadingSpace(x: string)
    ensures Trim(" " + x) == Trim(x)
  {
    assert (" " + x)[0] == ' ' && (" " + x)[1..] == x;
  }

  /** A token ` <name><c><rest>` trims to `<name><c>` followed by some of `rest`. */
  lemma TrimToken(name: string, c: char, rest: string) returns (rest': string)
    requires IsName(name) && !IsSpace(c)
    ensures Trim(" " + name + [c] + rest) == name + [c] + rest'
  {
    var s := " " + name + [c] + rest;
    assert s == " " + (name + [c] + rest);
    TrimLeadingSpace(name + [c] + rest);
    TrimKeepsPrefix(name + [c], rest);
    var t := Trim(s);
    assert t[..|name| + 1] == name + [c];
    rest' := t[|name| + 1..];
    assert t == t[..|name| + 1] + rest';
  }

  /** A token holding `=` or `:` is never dropped. */
  lemma CutIsNotDropped(token: string, k: nat)
    requires k < |token| && (token[k] == '=' || token[k] == ':')
    ensures !IsDropped(token)
  {
  }

  /** A token ` <name><c><rest>` is kept and stripped down to the name. */
  lemma NamedTokenStrips(name: string, c: char, rest: string)
    requires IsName(name) && (c == '=' || c == ':')
    ensures !IsDropped(Trim(" " + name + [c] + rest))
    ensures StripParam(Trim(" " + name + [c] + rest)) == name
  {
    var rest' := TrimToken(name, c, rest);
    var t := Trim(" " + name + [c] + rest);
    assert t[|name|] == c;
    CutIsNotDropped(t, |name|);
    StripParamOfName(name, c, rest');
  }

  /** A token holding a kept name followed by `=` or `:` yields exactly that name. */
  lemma ProcessParamsNamedToken(name: string, c: char, rest: string)
    requires IsName(name) && (c == '=' || c == ':') && ',' !in rest
    ensures ProcessParams(" " + name + [c] + rest) == [name]
  {
    NameIsTrimmed(name);
    assert ',' !in " " + name + [c] + rest;
    ProcessParamsToken(" " + name + [c] + rest);
    NamedTokenStrips(name, c, rest);
  }

  /** A bare kept name yields itself. */
  lemma ProcessParamsName(name: string)
    requires IsName(name) && !IsDropped(name)
    ensures ProcessParams(name) == [name]
  {
    NameIsTrimmed(name);
    assert Trim(name) == name;
    assert StripParam(name) == name;
    ProcessParamsToken(name);
    assert ProcessParams(name) == [StripParam(Trim(name))];
  }

  lemma ProcessParamsConcat3(x: string, y: string, z: string)
    ensures ProcessParams(x + "," + (y + "," + z)) == ProcessParams(x) + ProcessParams(y) + ProcessParams(z)
  {
    ProcessParamsConcat(x, y + "," + z);
    ProcessParamsConcat(y, z);
    AppendAssociative(ProcessParams(x), ProcessParams(y), ProcessParams(z));
  }

  /**
   * The documented example in general form: `a, b=1, c: int = 2` yields
   * `["a", "b", "c"]`, and so does every list of that shape whatever the
   * names, defaults and annotations.
   */
  lemma ProcessParamsExample(a: string, b: string, default: string, c: string, annotation: string)
    requires IsName(a) && IsName(b) && IsName(c)
    requires !IsDropped(a) && !IsDropped(b) && !IsDropped(c)
    requires ',' !in default && ',' !in annotation
    ensures ProcessParams(a + ", " + b + "=" + default + ", " + c + ": " + annotation) == [a, b, c]
  {
    var tb := " " + b + ['='] + default;
    var tc := " " + c + [':'] + (" " + annotation);
    var s := a + ", " + b + "=" + default + ", " + c + ": " + annotation;
    assert s == a + "," + (tb + "," + tc);
    ProcessParamsConcat3(a, tb, tc);
    ProcessParamsName(a);
    ProcessParamsNamedToken(b, '=', default);
    assert ',' !in " " + annotation;
    ProcessParamsNamedToken(c, ':', " " + annotation);
    SingletonsAppend(a, b, c);
  }

  /**
   * A leading token that trims to nothing, `self` or `cls` contributes no
   * name: the receiver of a method is dropped.
   */
  lemma ReceiverDropped(receiver: string, rest: string)
    requires ',' !in receiver && IsDropped(Trim(receiver))
    ensures ProcessParams(receiver + "," + rest) == ProcessParams(rest)
  {
    ProcessParamsConcat(receiver, rest);
    ProcessParamsToken(receiver);
  }

  // ----- The regular expressions of extractSignature -----

  /** The number of `\s` characters from index `i` on: what a greedy `\s*` consumes. */
  function SpaceRun(s: string, i: nat): (n: nat)
    requires i <= |s|
    ensures i + n <= |s|
    ensures forall k :: i <= k < i + n ==> IsSpace(s[k])
    ensures i + n == |s| || !IsSpace(s[i + n])
    decreases |s| - i
  {
    if i < |s| && IsSpace(s[i]) then 1 + SpaceRun(s, i + 1) else 0
  }

  /** The index of the first `)` from index `i` on, or `|s|`: where `[^)]*` stops. */
  function CloseParen(s: string, i: nat): (p: nat)
    requires i <= |s|
    ensures i <= p <= |s|
    ensures p < |s| ==> s[p] == ')'
    ensures forall k :: i <= k < p ==> s[k] != ')'
    decreases |s| - i
  {
    if i == |s| || s[i] == ')' then i else CloseParen(s, i + 1)
  }

  /**
   * `\(([^)]*)\):` at index `i`: an opening parenthesis, the captured text
   * (which holds no `)`), the first `)` after it, and a colon.
   */
  function ParamListAt(s: string, i: nat): (r: Option<string>)
    ensures r.Some? ==> ')' !in r.value
    ensures r.Some? ==> var p := i + 1 + |r.value|;
      && p + 1 < |s| && s[i] == '(' && s[i + 1..p] == r.value && s[p] == ')' && s[p + 1] == ':'
    ensures i < |s| && s[i] == '(' && CloseParen(s, i + 1) + 1 < |s| && s[CloseParen(s, i + 1) + 1] == ':' ==> r.Some?
  {
    if i < |s| && s[i] == '(' then
      var p := CloseParen(s, i + 1);
      if p + 1 < |s| && s[p + 1] == ':' then Some(s[i + 1..p]) else None
    else None
  }

  /**
   * The backtracking of a greedy `\s+` that has `w` white-space characters
   * from index `start` available: the rest of the pattern, `f`, is tried
   * after all `w` of them, then after `w - 1`, and so on down to one.
   */
  function BacktrackSpaces<T>(f: nat -> Option<T>, start: nat, w: nat): (r: Option<T>)
    ensures r.Some? <==> exists b :: start < b <= start + w && f(b).Some?
    ensures r.Some? ==> exists b :: start < b <= start + w && r == f(b) && forall j :: b < j <= start + w ==> f(j).None?
    decreases w
  {
    if w == 0 then None
    else if f(start + w).Some? then f(start + w)
    else BacktrackSpaces(f, start, w - 1)
  }

  /**
   * `<name>\s*\(([^)]*)\):` at index `b` when `gap` holds, and
   * `<name>\(([^)]*)\):` otherwise: the name, then (when `gap` holds) white
   * space, then the parameter list.
   */
  function NameThenParams(s: string, b: nat, name: string, gap: bool): (r: Option<string>)
    ensures r.Some? ==> OccursAt(s, name, b)
  {
    if OccursAt(s, name, b) then
      var c := b + |name|;
      ParamListAt(s, if gap then c + SpaceRun(s, c) else c)
    else None
  }

  /**
   * `def\s+<name>\s*\(([^)]*)\):` at index `i` when `gap` holds, and
   * `def\s+<name>\(([^)]*)\):` otherwise: the captured parameter text. The
   * name may take some of the white space after `def` (DefAtWhenLaidOut).
   */
  function DefAt(s: string, i: nat, name: string, gap: bool): (r: Option<string>)
    ensures r.Some? ==> ')' !in r.value
    ensures r.Some? ==> OccursAt(s, "def", i)
  {
    if OccursAt(s, "def", i) then
      BacktrackSpaces((b: nat) => NameThenParams(s, b, name, gap), i + 3, SpaceRun(s, i + 3))
    else None
  }

  /** Every character from index `i` up to index `j` is white space. */
  predicate AllSpace(s: string, i: nat, j: nat)
    requires i <= j <= |s|
  {
    forall k :: i <= k < j ==> IsSpace(s[k])
  }

  /** No `def\s+__init__\(([^)]*)\):` starts from index `e` up to index `k`. */
  predicate NoInitBetween(s: string, e: nat, k: nat) {
    forall j :: e <= j < k ==> DefAt(s, j, "__init__", false).None?
  }

  /** `\b`: exactly one of the characters around index `e` is a word character. */
  predicate WordBoundary(s: string, e: nat)
    requires e <= |s|
  {
    (e > 0 && IsWordChar(s[e - 1])) != (e < |s| && IsWordChar(s[e]))
  }

  /**
   * The leftmost match: the value of `f` at the least index from `i` to `n`
   * where it has one. This is how a regular expression without anchors picks
   * its match among the start positions.
   */
  function FirstMatch<T>(f: nat -> Option<T>, i: nat, n: nat): (r: Option<T>)
    requires i <= n
    ensures r.Some? <==> exists k :: i <= k <= n && f(k).Some?
    ensures r.Some? ==> exists k :: i <= k <= n && r == f(k) && forall j :: i <= j < k ==> f(j).None?
    decreases n - i
  {
    if f(i).Some? then f(i)
    else if i == n then None
    else FirstMatch(f, i + 1, n)
  }

  /** The first `def\s+__init__\(([^)]*)\):` from index `e` on: where the lazy `[\s\S]*?` stops. */
  function SearchInit(s: string, e: nat): Option<string>
    requires e <= |s|
  {
    FirstMatch((k: nat) => DefAt(s, k, "__init__", false), e, |s|)
  }

  /** `<name>\b[\s\S]*?def\s+__init__\(([^)]*)\):` at index `b`. */
  function ClassNameAt(s: string, b: nat, name: string): (r: Option<string>)
    ensures r.Some? ==> OccursAt(s, name, b) && WordBoundary(s, b + |name|) && r == SearchInit(s, b + |name|)
    ensures OccursAt(s, name, b) && WordBoundary(s, b + |name|) && SearchInit(s, b + |name|).Some? ==> r.Some?
  {
    if OccursAt(s, name, b) && WordBoundary(s, b + |name|) then SearchInit(s, b + |name|) else None
  }

  /**
   * The class pattern matched at index `i`: `class`, white space, the name
   * and a word boundary, then the first `__init__` after it. The name may
   * take some of the white space after `class` (ClassMatchWhenLaidOut).
   */
  function ClassMatchAt(s: string, i: nat, name: string): (r: Option<string>)
    ensures r.Some? ==> OccursAt(s, "class", i)
  {
    if OccursAt(s, "class", i) then
      BacktrackSpaces((b: nat) => ClassNameAt(s, b, name), i + 5, SpaceRun(s, i + 5))
    else None
  }

  /** The capture of the leftmost match of `class\s+<name>\b[\s\S]*?def\s+__init__\(([^)]*)\):`. */
  function SearchClass(s: string, name: string): Option<string> {
    FirstMatch((k: nat) => ClassMatchAt(s, k, name), 0, |s|)
  }

  /** The capture of the leftmost match of `def\s+<name>\s*\(([^)]*)\):`. */
  function SearchFunction(s: string, name: string): Option<string> {
    FirstMatch((k: nat) => DefAt(s, k, name, true), 0, |s|)
  }

  /**
   * `extractSignature(fileContent, symbolName)`: the class strategy, then the
   * function strategy, then no parameters. A match whose captured text is
   * empty counts as no match (the capture is falsy).
   */
  function ExtractSignature(fileContent: string, symbolName: string): (r: seq<string>)
    ensures forall i :: 0 <= i < |r| ==> '=' !in r[i] && ':' !in r[i]
    ensures
      var c := SearchClass(fileContent, symbolName);
      var f := SearchFunction(fileContent, symbolName);
      && (c.Some? && c.value != "" ==> r == ProcessParams(c.value))
      && (!(c.Some? && c.value != "") && f.Some? && f.value != "" ==> r == ProcessParams(f.value))
      && (!(c.Some? && c.value != "") && !(f.Some? && f.value != "") ==> r == [])
  {
    var classMatch := SearchClass(fileContent, symbolName);
    if classMatch.Some? && classMatch.value != "" then ProcessParams(classMatch.value)
    else
      var funcMatch := SearchFunction(fileContent, symbolName);
      if funcMatch.Some? && funcMatch.value != "" then ProcessParams(funcMatch.value)
      else []
  }

  /** What a match of `<name>\s*\(([^)]*)\):` at index `b` is made of: the name, white space (only when `gap` holds), and the parameter list. */
  lemma NameThenParamsMeaning(s: string, b: nat, name: string, gap: bool)
    requires NameThenParams(s, b, name, gap).Some?
    ensures exists p :: (b + |name| <= p <= |s| && AllSpace(s, b + |name|, p) && (gap || p == b + |name|)
      && ParamListAt(s, p) == NameThenParams(s, b, name, gap))
  {
    var c := b + |name|;
    var p := if gap then c + SpaceRun(s, c) else c;
    assert AllSpace(s, c, p);
  }

  /** What a match of `def\s+<name>…` at index `i` is made of: `def`, white space, and the rest of the pattern at some index `b`. */
  lemma DefAtMeaning(s: string, i: nat, name: string, gap: bool)
    requires DefAt(s, i, name, gap).Some?
    ensures exists b :: i + 3 < b <= |s| && AllSpace(s, i + 3, b) && NameThenParams(s, b, name, gap) == DefAt(s, i, name, gap)
  {
    var f := (b: nat) => NameThenParams(s, b, name, gap);
    var w := SpaceRun(s, i + 3);
    var b :| i + 3 < b <= i + 3 + w && DefAt(s, i, name, gap) == f(b);
    assert AllSpace(s, i + 3, b);
  }

  /** What a match of the class pattern at index `i` is made of: `class`, white space, and the name and the rest at some index `b`. */
  lemma ClassMatchAtMeaning(s: string, i: nat, name: string)
    requires ClassMatchAt(s, i, name).Some?
    ensures exists b :: i + 5 < b <= |s| && AllSpace(s, i + 5, b) && ClassNameAt(s, b, name) == ClassMatchAt(s, i, name)
  {
    var f := (b: nat) => ClassNameAt(s, b, name);
    var w := SpaceRun(s, i + 5);
    var b :| i + 5 < b <= i + 5 + w && ClassMatchAt(s, i, name) == f(b);
    assert AllSpace(s, i + 5, b);
  }

  /** The lazy `[\s\S]*?` before `def\s+__init__`: the search from `e` gives the first match at or after `e`, and none when there is none. */
  lemma SearchInitLeftmost(s: string, e: nat)
    requires e <= |s|
    ensures SearchInit(s, e).Some? <==> exists k :: e <= k <= |s| && DefAt(s, k, "__init__", false).Some?
    ensures SearchInit(s, e).Some? ==> exists k :: e <= k <= |s| && SearchInit(s, e) == DefAt(s, k, "__init__", false) && NoInitBetween(s, e, k)
  {
    var f := (k: nat) => DefAt(s, k, "__init__", false);
    assert forall k: nat :: f(k) == DefAt(s, k, "__init__", false);
  }

  /** The class strategy gives the match at the least start position that has one, and none when there is none. */
  lemma SearchClassLeftmost(s: string, name: string)
    ensures SearchClass(s, name).Some? <==> exists k :: 0 <= k <= |s| && ClassMatchAt(s, k, name).Some?
    ensures SearchClass(s, name).Some? ==> exists k :: (0 <= k <= |s| && SearchClass(s, name) == ClassMatchAt(s, k, name)
      && forall j :: 0 <= j < k ==> ClassMatchAt(s, j, name).None?)
  {
    var f := (k: nat) => ClassMatchAt(s, k, name);
    assert forall k: nat :: f(k) == ClassMatchAt(s, k, name);
  }

  /** The function strategy gives the match at the least start position that has one, and none when there is none. */
  lemma SearchFunctionLeftmost(s: string, name: string)
    ensures SearchFunction(s, name).Some? <==> exists k :: 0 <= k <= |s| && DefAt(s, k, name, true).Some?
    ensures SearchFunction(s, name).Some? ==> exists k :: (0 <= k <= |s| && SearchFunction(s, name) == DefAt(s, k, name, true)
      && forall j :: 0 <= j < k ==> DefAt(s, j, name, true).None?)
  {
    var f := (k: nat) => DefAt(s, k, name, true);
    assert forall k: nat :: f(k) == DefAt(s, k, name, true);
  }

  /** A white-space run from `start` up to `b` lies within the greedy run from `start`. */
  lemma SpaceRunCovers(s: string, start: nat, b: nat)
    requires start < b <= |s| && AllSpace(s, start, b)
    ensures b <= start + SpaceRun(s, start)
  {
    var w := SpaceRun(s, start);
    assert forall k :: start <= k < b ==> IsSpace(s[k]);
  }

  /**
   * The converse of DefAt's contract: `def`, any non-empty part of the white
   * space after it, and the name with its parameter list make a match.
   */
  lemma DefAtWhenLaidOut(s: string, i: nat, name: string, gap: bool, b: nat)
    requires OccursAt(s, "def", i) && i + 3 < b <= |s| && AllSpace(s, i + 3, b)
    requires NameThenParams(s, b, name, gap).Some?
    ensures DefAt(s, i, name, gap).Some?
  {
    SpaceRunCovers(s, i + 3, b);
    var f := (b: nat) => NameThenParams(s, b, name, gap);
    assert f(b).Some?;
  }

  /**
   * The converse of ClassMatchAt's contract: `class`, any non-empty part of
   * the white space after it, and the rest of the pattern make a match.
   */
  lemma ClassMatchWhenLaidOut(s: string, i: nat, name: string, b: nat)
    requires OccursAt(s, "class", i) && i + 5 < b <= |s| && AllSpace(s, i + 5, b)
    requires ClassNameAt(s, b, name).Some?
    ensures ClassMatchAt(s, i, name).Some?
  {
    SpaceRunCovers(s, i + 5, b);
    var f := (b: nat) => ClassNameAt(s, b, name);
    assert f(b).Some?;
  }

  /** Without a match at any start position, there is no leftmost match. */
  lemma {:induction false} FirstMatchNone<T>(f: nat -> Option<T>, i: nat, n: nat)
    requires i <= n
    requires forall k :: i <= k <= n ==> f(k).None?
    ensures FirstMatch(f, i, n).None?
    decreases n - i
  {
    if i < n {
      FirstMatchNone(f, i + 1, n);
    }
  }

  /** Without the word `class` anywhere in the file, the class strategy finds nothing. */
  lemma NoClassHeader(s: string, name: string)
    requires !Contains(s, "class")
    ensures SearchClass(s, name).None?
  {
    forall k: nat | k <= |s|
      ensures ClassMatchAt(s, k, name).None?
    {
    }
  }

  /** `[^)]*` stops at the first `)`. */
  lemma CloseParenAt(s: string, i: nat, p: nat)
    requires i <= p < |s| && s[p] == ')'
    requires forall k :: i <= k < p ==> s[k] != ')'
    ensures CloseParen(s, i) == p
  {
  }

  /** `\(<params>\):` at index `c` captures `params`: the converse of ParamListAt's contract. */
  lemma ParamListCaptures(s: string, c: nat, params: string)
    requires ')' !in params
    requires c + |params| + 2 < |s| && s[c] == '('
    requires s[c + 1..c + 1 + |params|] == params
    requires s[c + 1 + |params|] == ')' && s[c + 2 + |params|] == ':'
    ensures ParamListAt(s, c) == Some(params)
  {
    var p := c + 1 + |params|;
    forall k | c + 1 <= k < p
      ensures s[k] != ')'
    {
      assert s[k] == params[k - (c + 1)];
    }
    CloseParenAt(s, c + 1, p);
  }

  /** `def\s+` at index `i` consumes exactly one space when a non-space follows it. */
  lemma DefKeywordAt(s: string, i: nat, next: char)
    requires i + 4 < |s| && s[i..i + 4] == "def " && s[i + 4] == next && !IsSpace(next)
    ensures OccursAt(s, "def", i) && SpaceRun(s, i + 3) == 1
  {
    assert s[i..i + 3] == s[i..i + 4][..3];
    assert s[i + 3] == s[i..i + 4][3];
    assert SpaceRun(s, i + 4) == 0;
  }

  /** `def\s+<name>\s*\(<params>\):` (or its form without the second `\s*`) at index `i`, laid out as `def <name>(<params>):`, captures `params`. */
  lemma DefAtIndices(s: string, i: nat, name: string, gap: bool, params: string)
    requires IsName(name) && ')' !in params
    requires i + |name| + |params| + 6 < |s|
    requires s[i..i + 4] == "def "
    requires s[i + 4..i + 4 + |name|] == name
    requires s[i + 4 + |name|] == '('
    requires s[i + 5 + |name|..i + 5 + |name| + |params|] == params
    requires s[i + 5 + |name| + |params|] == ')' && s[i + 6 + |name| + |params|] == ':'
    ensures DefAt(s, i, name, gap) == Some(params)
  {
    var c := i + 4 + |name|;
    DefKeywordAt(s, i, name[0]);
    assert SpaceRun(s, c) == 0;
    ParamListCaptures(s, c, params);
    assert NameThenParams(s, i + 4, name, gap) == Some(params);
  }

  /** The leftmost match is the one at the first start position that has one. */
  lemma FirstMatchAt<T>(f: nat -> Option<T>, i: nat, n: nat, k: nat)
    requires i <= k <= n && f(k).Some?
    requires forall j :: i <= j < k ==> f(j).None?
    ensures FirstMatch(f, i, n) == f(k)
  {
  }

  /**
   * A file that opens with the declaration `def <name>(<params>):` and never
   * mentions `class` yields the names of that parameter list.
   */
  lemma ExtractSignatureOfFunction(name: string, params: string, rest: string)
    requires IsName(name) && params != "" && ')' !in params
    requires !Contains("def " + name + "(" + params + "):" + rest, "class")
    ensures ExtractSignature("def " + name + "(" + params + "):" + rest, name) == ProcessParams(params)
  {
    var s := "def " + name + "(" + params + "):" + rest;
    NoClassHeader(s, name);
    var n := |name|;
    assert s[0..4] == "def ";
    assert s[4..4 + n] == name;
    assert s[4 + n] == '(';
    assert s[5 + n..5 + n + |params|] == params;
    assert s[5 + n + |params|] == ')' && s[6 + n + |params|] == ':';
    DefAtIndices(s, 0, name, true, params);
    var f := (k: nat) => DefAt(s, k, name, true);
    FirstMatchAt(f, 0, |s|, 0);
  }

  /** `def\s+__init__\(<params>\):` at index `d` captures `params`. */
  lemma InitAt(s: string, d: nat, params: string)
    requires ')' !in params
    requires d + 14 + |params| < |s|
    requires s[d..d + 13] == "def __init__("
    requires s[d + 13..d + 13 + |params|] == params
    requires s[d + 13 + |params|] == ')' && s[d + 14 + |params|] == ':'
    ensures DefAt(s, d, "__init__", false) == Some(params)
  {
    var h := s[d..d + 13];
    forall k | 0 <= k < 4
      ensures s[d..d + 4][k] == "def "[k]
    {
      assert s[d + k] == h[k];
    }
    forall k | 0 <= k < 8
      ensures s[d + 4..d + 12][k] == "__init__"[k]
    {
      assert s[d + 4 + k] == h[4 + k];
    }
    assert s[d + 12] == h[12];
    DefAtIndices(s, d, "__init__", false, params);
  }

  /** `class\s+<name>\b` at the start of a file laid out as `class <name>` and then a non-word character. */
  lemma ClassHeaderAtStart(s: string, name: string)
    requires IsName(name) && 6 + |name| < |s|
    requires s[..6] == "class " && s[6..6 + |name|] == name
    requires !IsWordChar(s[6 + |name|])
    ensures ClassMatchAt(s, 0, name) == SearchInit(s, 6 + |name|)
  {
    assert s[0..5] == s[..6][..5];
    assert OccursAt(s, "class", 0);
    assert s[5] == s[..6][5] && s[6] == s[6..6 + |name|][0];
    assert SpaceRun(s, 6) == 0;
    assert SpaceRun(s, 5) == 1;
    assert s[5 + |name|] == s[6..6 + |name|][|name| - 1];
    assert OccursAt(s, name, 6);
    assert WordBoundary(s, 6 + |name|);
    assert ClassNameAt(s, 6, name) == SearchInit(s, 6 + |name|);
    var f := (b: nat) => ClassNameAt(s, b, name);
    assert BacktrackSpaces(f, 5, 1) == f(6);
  }

  /**
   * The lazy `[\s\S]*?` stops at the first `def __init__(`: when no start
   * position from `e` to `d` matches and `d` starts `def __init__(<params>):`,
   * the search from `e` captures `params`.
   */
  lemma SearchInitAt(s: string, e: nat, d: nat, params: string)
    requires e <= d && ')' !in params
    requires d + 14 + |params| < |s|
    requires NoInitBetween(s, e, d)
    requires s[d..d + 13] == "def __init__("
    requires s[d + 13..d + 13 + |params|] == params
    requires s[d + 13 + |params|] == ')' && s[d + 14 + |params|] == ':'
    ensures SearchInit(s, e) == Some(params)
  {
    InitAt(s, d, params);
    var f := (k: nat) => DefAt(s, k, "__init__", false);
    FirstMatchAt(f, e, |s|, d);
  }

  /** No `def` starts at a character other than `d`. */
  lemma NoDefAt(s: string, j: nat)
    requires j < |s| && s[j] != 'd'
    ensures DefAt(s, j, "__init__", false).None?
  {
    if j + 3 <= |s| {
      assert s[j..j + 3][0] == s[j];
    }
  }

  /** A colon followed by white space holds no start of `def __init__`. */
  lemma GapHasNoInit(s: string, e: nat, d: nat)
    requires e < d <= |s| && s[e] == ':'
    requires forall j :: e < j < d ==> IsSpace(s[j])
    ensures NoInitBetween(s, e, d)
  {
    forall j | e <= j < d
      ensures DefAt(s, j, "__init__", false).None?
    {
      assert s[j] != 'd';
      NoDefAt(s, j);
    }
  }

  /** Where the pieces of `class <name>:<gap>` sit in a file that starts with them. */
  lemma ClassHeadLayout(name: string, gap: string, body: string)
    requires forall k :: 0 <= k < |gap| ==> IsSpace(gap[k])
    ensures var s := "class " + name + ":" + gap + body;
      var e := 6 + |name|;
      && s[..6] == "class " && s[6..e] == name && s[e] == ':'
      && forall j :: e < j < e + 1 + |gap| ==> IsSpace(s[j])
  {
    var s := "class " + name + ":" + gap + body;
    var e := 6 + |name|;
    forall j | e < j < e + 1 + |gap|
      ensures IsSpace(s[j])
    {
      assert s[j] == gap[j - e - 1];
    }
  }

  /** Where the pieces of `def __init__(<params>):` sit in a file after a prefix `head`. */
  lemma InitBodyLayout(head: string, params: string, rest: string)
    ensures var s := head + ("def __init__(" + params + "):" + rest);
      var d := |head|;
      && d + 14 + |params| < |s|
      && s[d..d + 13] == "def __init__("
      && s[d + 13..d + 13 + |params|] == params
      && s[d + 13 + |params|] == ')' && s[d + 14 + |params|] == ':'
  {
  }

  /** The class pattern matches at the start of a file that opens with `class <name>:`, white space, and `def __init__(`. */
  lemma ClassMatchAtStart(name: string, gap: string, params: string, rest: string)
    requires IsName(name) && ')' !in params
    requires forall k :: 0 <= k < |gap| ==> IsSpace(gap[k])
    ensures ClassMatchAt("class " + name + ":" + gap + ("def __init__(" + params + "):" + rest), 0, name) == Some(params)
  {
    var head := "class " + name + ":" + gap;
    var body := "def __init__(" + params + "):" + rest;
    ClassHeadLayout(name, gap, body);
    InitBodyLayout(head, params, rest);
    ClassMatchAtIndices(head + body, name, |head|, params);
  }

  /** The class pattern at index 0 of a text laid out as `class <name>:`, white space up to `d`, and `def __init__(<params>):` at `d`. */
  lemma ClassMatchAtIndices(s: string, name: string, d: nat, params: string)
    requires IsName(name) && ')' !in params
    requires 6 + |name| < d && d + 14 + |params| < |s|
    requires s[..6] == "class " && s[6..6 + |name|] == name && s[6 + |name|] == ':'
    requires forall j :: 6 + |name| < j < d ==> IsSpace(s[j])
    requires s[d..d + 13] == "def __init__("
    requires s[d + 13..d + 13 + |params|] == params
    requires s[d + 13 + |params|] == ')' && s[d + 14 + |params|] == ':'
    ensures ClassMatchAt(s, 0, name) == Some(params)
  {
    var e := 6 + |name|;
    ClassHeaderAtStart(s, name);
    GapHasNoInit(s, e, d);
    SearchInitAt(s, e, d, params);
  }

  /**
   * A file that opens with `class <name>:`, white space, and then
   * `def __init__(<params>):` yields the names of the `__init__` parameter
   * list, whatever follows: the class strategy takes precedence.
   */
  lemma ExtractSignatureOfClass(name: string, gap: string, params: string, rest: string)
    requires IsName(name) && params != "" && ')' !in params
    requires forall k :: 0 <= k < |gap| ==> IsSpace(gap[k])
    ensures ExtractSignature("class " + name + ":" + gap + ("def __init__(" + params + "):" + rest), name)
         == ProcessParams(params)
  {
    var s := "class " + name + ":" + gap + ("def __init__(" + params + "):" + rest);
    ClassMatchAtStart(name, gap, params, rest);
    var f := (k: nat) => ClassMatchAt(s, k, name);
    FirstMatchAt(f, 0, |s|, 0);
  }

  /**
   * The class pattern at index 0 of a text laid out as `class  <name>:` and
   * `def __init__(<params>):`, for the symbol name ` <name>`, captures
   * `<params>`.
   */
  lemma LeadingSpaceIndices(s: string, name: string, params: string)
    requires IsName(name) && ')' !in params
    requires 22 + |name| + |params| < |s|
    requires s[..7] == "class  " && s[7..7 + |name|] == name && s[7 + |name|] == ':'
    requires s[8 + |name|..21 + |name|] == "def __init__("
    requires s[21 + |name|..21 + |name| + |params|] == params
    requires s[21 + |name| + |params|] == ')' && s[22 + |name| + |params|] == ':'
    ensures ClassMatchAt(s, 0, " " + name) == Some(params)
  {
    var e := 7 + |name|;
    var d := 8 + |name|;
    assert s[d..d + 13] == "def __init__(";
    assert s[d + 13..d + 13 + |params|] == params;
    GapHasNoInit(s, e, d);
    SearchInitAt(s, e, d, params);
    LeadingSpaceBacktracks(s, name);
  }

  /** Where ` <name>` occurs, and where it does not, in a text that starts with `class  <name>:`. */
  lemma LeadingSpaceHeader(s: string, name: string)
    requires IsName(name) && 8 + |name| <= |s|
    requires s[..7] == "class  " && s[7..7 + |name|] == name && s[7 + |name|] == ':'
    ensures OccursAt(s, "class", 0) && SpaceRun(s, 5) == 2
    ensures OccursAt(s, " " + name, 6) && !OccursAt(s, " " + name, 7)
    ensures WordBoundary(s, 7 + |name|)
  {
    var e := 7 + |name|;
    assert s[0..5] == s[..7][..5];
    assert s[5] == s[..7][5] && s[6] == s[..7][6] && s[7] == s[7..e][0];
    assert SpaceRun(s, 7) == 0;
    assert s[6..e] == " " + name by {
      forall k | 0 <= k < |name| + 1
        ensures s[6..e][k] == (" " + name)[k]
      {
        if k > 0 {
          assert s[6 + k] == s[7..e][k - 1];
        }
      }
    }
    assert s[7..e + 1][0] == s[7];
    assert s[e - 1] == s[7..e][|name| - 1];
  }

  /**
   * `class\s+ <name>\b` on `class  <name>:`: the greedy `\s+` first takes
   * both spaces, the name then fails, and `\s+` gives one space back.
   */
  lemma LeadingSpaceBacktracks(s: string, name: string)
    requires IsName(name) && 8 + |name| <= |s|
    requires s[..7] == "class  " && s[7..7 + |name|] == name && s[7 + |name|] == ':'
    ensures ClassMatchAt(s, 0, " " + name) == SearchInit(s, 7 + |name|)
  {
    LeadingSpaceHeader(s, name);
    var f := (b: nat) => ClassNameAt(s, b, " " + name);
    assert f(7).None?;
    assert f(6) == SearchInit(s, 7 + |name|);
    assert BacktrackSpaces(f, 5, 2) == BacktrackSpaces(f, 5, 1);
  }

  /**
   * A symbol name may begin with white space: for the name ` <name>`, a file
   * that opens with `class  <name>:def __init__(<params>):` yields the names
   * of that parameter list, since `\s+` gives one of its spaces to the name.
   */
  lemma ExtractSignatureLeadingSpace(name: string, params: string, rest: string)
    requires IsName(name) && params != "" && ')' !in params
    ensures ExtractSignature("class  " + name + ":" + ("def __init__(" + params + "):" + rest), " " + name)
         == ProcessParams(params)
  {
    var head := "class  " + name + ":";
    var s := head + ("def __init__(" + params + "):" + rest);
    InitBodyLayout(head, params, rest);
    assert s[..7] == "class  " && s[7..7 + |name|] == name && s[7 + |name|] == ':';
    LeadingSpaceIndices(s, name, params);
    var f := (k: nat) => ClassMatchAt(s, k, " " + name);
    FirstMatchAt(f, 0, |s|, 0);
  }
}
