/**
 * The small part of JavaScript's String API that the extension relies on:
 * `trim`, `split` on one character, `join`, `indexOf`, `includes`,
 * `startsWith`, `endsWith`, and splitting file text into lines.
 * Strings are sequences of Unicode scalar values.
 */
module Strings {

  /** ECMAScript WhiteSpace and LineTerminator: what `trim` removes and what `\s` matches. */
  predicate IsSpace(c: char) {
    || c == '\t' || c == '\n' || c == '\U{000B}' || c == '\U{000C}' || c == '\r' || c == ' '
    || c == '\U{00A0}' || c == '\U{1680}' || ('\U{2000}' <= c <= '\U{200A}')
    || c == '\U{2028}' || c == '\U{2029}' || c == '\U{202F}' || c == '\U{205F}'
    || c == '\U{3000}' || c == '\U{FEFF}'
  }

  /** The regular-expression class `[A-Za-z_0-9]`. */
  predicate IsWordChar(c: char) {
    ('A' <= c <= 'Z') || ('a' <= c <= 'z') || ('0' <= c <= '9') || c == '_'
  }

  /** Neither the first nor the last character of `s` is white space. */
  predicate IsTrimmed(s: string) {
    s == [] || (!IsSpace(s[0]) && !IsSpace(s[|s| - 1]))
  }

  /** `s.trim()`: leading and trailing white space removed. */
  function Trim(s: string): (r: string)
    ensures IsTrimmed(r)
    ensures |r| <= |s|
    decreases |s|
  {
    if |s| > 0 && IsSpace(s[0]) then Trim(s[1..])
    else if |s| > 0 && IsSpace(s[|s| - 1]) then Trim(s[..|s| - 1])
    else s
  }

  /** Every part trimmed, in order: the mapping step of src/extension.ts:248. */
  function TrimAll(parts: seq<string>): (r: seq<string>)
    ensures |r| == |parts|
  {
    if |parts| == 0 then [] else [Trim(parts[0])] + TrimAll(parts[1..])
  }

  lemma {:induction false} TrimAllAt(parts: seq<string>, i: nat)
    requires i < |parts|
    ensures TrimAll(parts)[i] == Trim(parts[i])
  {
    if i > 0 {
      TrimAllAt(parts[1..], i - 1);
    }
  }

  /** `s.startsWith(prefix)`. */
  predicate StartsWith(s: string, prefix: string) {
    |prefix| <= |s| && s[..|prefix|] == prefix
  }

  /** `s.endsWith(suffix)`. */
  predicate EndsWith(s: string, suffix: string) {
    |suffix| <= |s| && s[|s| - |suffix|..] == suffix
  }

  /** `p` occurs in `s` starting at index `i`. */
  predicate OccursAt(s: string, p: string, i: nat) {
    i + |p| <= |s| && s[i..i + |p|] == p
  }

  /** `s.includes(p)`. */
  predicate Contains(s: string, p: string) {
    exists i: nat :: i <= |s| && OccursAt(s, p, i)
  }

  /** `s.indexOf(c)`: the first index holding `c`, or -1. */
  function IndexOf(s: string, c: char): (r: int)
    ensures -1 <= r < |s|
    ensures r == -1 <==> c !in s
    ensures r >= 0 ==> s[r] == c && c !in s[..r]
  {
    if |s| == 0 then -1
    else if s[0] == c then 0
    else
      var k := IndexOf(s[1..], c);
      if k == -1 then -1 else k + 1
  }

  /** `parts.join(sep)`. */
  function Join(parts: seq<string>, sep: string): string {
    if |parts| == 0 then ""
    else if |parts| == 1 then parts[0]
    else parts[0] + sep + Join(parts[1..], sep)
  }

  /** `s.split(c)` for a one-character separator. */
  function Split(s: string, c: char): (r: seq<string>)
    ensures |r| >= 1
    ensures forall i :: 0 <= i < |r| ==> c !in r[i]
    ensures Join(r, [c]) == s
  {
    if |s| == 0 then [""]
    else if s[0] == c then
      var rest := Split(s[1..], c);
      assert s == [c] + s[1..];
      [""] + rest
    else
      var rest := Split(s[1..], c);
      var r := [[s[0]] + rest[0]] + rest[1..];
      assert Join(r, [c]) == [s[0]] + Join(rest, [c]) by {
        if |rest| > 1 {
          assert r[1..] == rest[1..];
        }
      }
      r
  }

  /** `s.replace(/<from>/g, to)` for a one-character pattern. */
  function ReplaceChar(s: string, from: char, to: char): (r: string)
    ensures |r| == |s|
    ensures forall i :: 0 <= i < |s| ==> r[i] == (if s[i] == from then to else s[i])
  {
    if |s| == 0 then [] else [if s[0] == from then to else s[0]] + ReplaceChar(s[1..], from, to)
  }

  /** `content.split(/\r?\n/)`: the pieces between line feeds, each losing the carriage return before its line feed. */
  function SplitLines(content: string): (lines: seq<string>)
    ensures |lines| >= 1
  {
    DropCarriageReturns(Split(content, '\n'))
  }

  /** Every piece but the last loses one trailing carriage return. */
  function DropCarriageReturns(pieces: seq<string>): (r: seq<string>)
    ensures |r| == |pieces|
  {
    if |pieces| <= 1 then pieces
    else [WithoutFinalCarriageReturn(pieces[0])] + DropCarriageReturns(pieces[1..])
  }

  /** A piece followed by a line feed: one carriage return before that line feed belongs to the separator. */
  function WithoutFinalCarriageReturn(piece: string): (r: string)
    ensures StartsWith(piece, r)
    ensures EndsWith(piece, "\r") ==> r + "\r" == piece
    ensures !EndsWith(piece, "\r") ==> r == piece
  {
    if EndsWith(piece, "\r") then piece[..|piece| - 1] else piece
  }

  // ----- Lemmas -----

  // Generic sequence identities, stated over an opaque element type so that
  // proving them never looks inside the elements.

  lemma AppendAssociative<T>(a: seq<T>, b: seq<T>, c: seq<T>)
    ensures a + b + c == a + (b + c)
  {
  }

  lemma SliceCons<T>(s: seq<T>, i: nat, m: nat)
    requires i < m <= |s|
    ensures s[i..m] == [s[i]] + s[i + 1..m]
  {
  }

  lemma SuffixCons<T>(s: seq<T>, i: nat)
    requires i < |s|
    ensures s[i..] == [s[i]] + s[i + 1..]
  {
  }

  lemma SingletonsAppend<T>(x: T, y: T, z: T)
    ensures [x] + [y] + [z] == [x, y, z]
  {
  }

  /** Trimming removes characters and adds none. */
  lemma {:induction false} TrimOmits(s: string, c: char)
    requires c !in s
    ensures c !in Trim(s)
    decreases |s|
  {
    if |s| > 0 && IsSpace(s[0]) {
      assert c !in s[1..];
      TrimOmits(s[1..], c);
    } else if |s| > 0 && IsSpace(s[|s| - 1]) {
      assert c !in s[..|s| - 1];
      TrimOmits(s[..|s| - 1], c);
    }
  }

  lemma {:induction false} JoinAppendOne(parts: seq<string>, x: string, sep: string)
    requires |parts| >= 1
    ensures Join(parts + [x], sep) == Join(parts, sep) + sep + x
  {
    if |parts| == 1 {
      assert (parts + [x])[1..] == [x];
    } else {
      assert (parts + [x])[1..] == parts[1..] + [x];
      JoinAppendOne(parts[1..], x, sep);
    }
  }

  /** Joining with `sep` a non-empty list whose first part gains a leading `x` gains that `x` in front. */
  lemma JoinConsFirst(x: char, parts: seq<string>, sep: string)
    requires |parts| >= 1
    ensures Join([[x] + parts[0]] + parts[1..], sep) == [x] + Join(parts, sep)
  {
    var r := [[x] + parts[0]] + parts[1..];
    if |parts| > 1 {
      assert r[1..] == parts[1..];
      AppendAssociative([x], parts[0], sep);
      AppendAssociative([x], parts[0] + sep, Join(parts[1..], sep));
    }
  }

  /** `s.split(c).join(d)` replaces every `c` in `s` with `d`. */
  lemma {:induction false} JoinSplitReplaces(s: string, c: char, d: char)
    ensures Join(Split(s, c), [d]) == ReplaceChar(s, c, d)
    decreases |s|
  {
    if |s| > 0 {
      var rest := Split(s[1..], c);
      JoinSplitReplaces(s[1..], c, d);
      if s[0] == c {
        assert Split(s, c) == [""] + rest;
        assert ([""] + rest)[1..] == rest;
      } else {
        assert Split(s, c) == [[s[0]] + rest[0]] + rest[1..];
        JoinConsFirst(s[0], rest, [d]);
      }
    }
  }

  /** Replacing a character that does not occur changes nothing. */
  lemma ReplaceCharAbsent(s: string, c: char, d: char)
    requires c !in s
    ensures ReplaceChar(s, c, d) == s
  {
    assert forall i :: 0 <= i < |s| ==> ReplaceChar(s, c, d)[i] == s[i];
  }

  /** A character in neither the parts nor the separator is not in their join. */
  lemma {:induction false} JoinOmits(parts: seq<string>, sep: string, c: char)
    requires c !in sep
    requires forall i :: 0 <= i < |parts| ==> c !in parts[i]
    ensures c !in Join(parts, sep)
    decreases |parts|
  {
    if |parts| > 1 {
      JoinOmits(parts[1..], sep, c);
    }
  }

  /** Every occurrence of the separator ends a piece: `a + [c] + b` splits into the pieces of `a` followed by those of `b`. */
  lemma {:induction false} SplitAround(a: string, c: char, b: string)
    ensures Split(a + [c] + b, c) == Split(a, c) + Split(b, c)
  {
    if |a| == 0 {
      assert a + [c] + b == [c] + b;
      assert ([c] + b)[1..] == b;
    } else {
      assert (a + [c] + b)[1..] == a[1..] + [c] + b;
      SplitAround(a[1..], c, b);
    }
  }

  /** Splitting a string without the separator yields that string alone. */
  lemma {:induction false} SplitNoSeparator(s: string, c: char)
    requires c !in s
    ensures Split(s, c) == [s]
  {
    if |s| > 0 {
      SplitNoSeparator(s[1..], c);
    }
  }

  /** `Split` undoes `Join` when no part holds the separator. */
  lemma {:induction false} SplitJoin(parts: seq<string>, c: char)
    requires |parts| >= 1
    requires forall i :: 0 <= i < |parts| ==> c !in parts[i]
    ensures Split(Join(parts, [c]), c) == parts
  {
    if |parts| == 1 {
      SplitNoSeparator(parts[0], c);
    } else {
      SplitJoin(parts[1..], c);
      SplitNoSeparator(parts[0], c);
      SplitAround(parts[0], c, Join(parts[1..], [c]));
      assert parts[0] + [c] + Join(parts[1..], [c]) == Join(parts, [c]);
    }
  }

  /** A string splits into a single piece exactly when the separator does not occur in it. */
  lemma SplitSingle(s: string, c: char)
    ensures |Split(s, c)| == 1 <==> c !in s
  {
    if c !in s {
      SplitNoSeparator(s, c);
    }
  }

  /**
   * `trim` only cuts: the result is a slice of the input, and everything cut
   * off in front and behind is white space.
   */
  lemma {:induction false} TrimIsSlice(s: string) returns (a: nat, b: nat)
    ensures a <= b <= |s| && Trim(s) == s[a..b]
    ensures forall k :: 0 <= k < a ==> IsSpace(s[k])
    ensures forall k :: b <= k < |s| ==> IsSpace(s[k])
    decreases |s|
  {
    if |s| > 0 && IsSpace(s[0]) {
      var a', b' := TrimIsSlice(s[1..]);
      a, b := a' + 1, b' + 1;
      forall k | 0 <= k < b' - a'
        ensures s[1..][a'..b'][k] == s[a..b][k]
      {
        assert s[1..][a' + k] == s[a + k];
      }
      assert s[1..][a'..b'] == s[a..b];
      forall k | 0 <= k < a
        ensures IsSpace(s[k])
      {
        if k > 0 {
          assert s[k] == s[1..][k - 1];
        }
      }
      forall k | b <= k < |s|
        ensures IsSpace(s[k])
      {
        assert s[k] == s[1..][k - 1];
      }
    } else if |s| > 0 && IsSpace(s[|s| - 1]) {
      var t := s[..|s| - 1];
      a, b := TrimIsSlice(t);
      assert t[a..b] == s[a..b];
      if |t| > 0 {
        assert t[0] == s[0];
      }
      assert a == 0;
      forall k | b <= k < |s|
        ensures IsSpace(s[k])
      {
        if k < |s| - 1 {
          assert s[k] == t[k];
        }
      }
    } else {
      a, b := 0, |s|;
    }
  }

  /** A character absent from the text is absent from every piece it splits into. */
  lemma {:induction false} SplitOmits(s: string, c: char, d: char)
    requires d !in s
    ensures forall i :: 0 <= i < |Split(s, c)| ==> d !in Split(s, c)[i]
    decreases |s|
  {
    if |s| > 0 {
      assert d !in s[1..];
      SplitOmits(s[1..], c, d);
    }
  }

  lemma {:induction false} DropCarriageReturnsAt(pieces: seq<string>, i: nat)
    requires i < |pieces|
    ensures DropCarriageReturns(pieces)[i]
         == if i < |pieces| - 1 then WithoutFinalCarriageReturn(pieces[i]) else pieces[i]
    decreases |pieces|
  {
    if |pieces| > 1 && i > 0 {
      DropCarriageReturnsAt(pieces[1..], i - 1);
    }
  }

  /**
   * `split(/\r?\n/)`: the lines are the pieces between line feeds, each but the
   * last losing the carriage return before its line feed; no line holds a
   * line feed.
   */
  lemma SplitLinesPieces(content: string)
    ensures var pieces := Split(content, '\n');
      var lines := SplitLines(content);
      && |lines| == |pieces|
      && lines[|lines| - 1] == pieces[|pieces| - 1]
      && (forall i :: 0 <= i < |lines| - 1 ==> lines[i] == WithoutFinalCarriageReturn(pieces[i]))
      && (forall i :: 0 <= i < |lines| ==> '\n' !in lines[i])
  {
    DropCarriageReturnsPieces(Split(content, '\n'));
  }

  /** SplitLinesPieces for any pieces without line feeds. */
  lemma DropCarriageReturnsPieces(pieces: seq<string>)
    requires |pieces| >= 1
    requires forall k :: 0 <= k < |pieces| ==> '\n' !in pieces[k]
    ensures var lines := DropCarriageReturns(pieces);
      && lines[|lines| - 1] == pieces[|pieces| - 1]
      && (forall i :: 0 <= i < |lines| - 1 ==> lines[i] == WithoutFinalCarriageReturn(pieces[i]))
      && (forall i :: 0 <= i < |lines| ==> '\n' !in lines[i])
  {
    forall i | 0 <= i < |pieces|
      ensures DropCarriageReturns(pieces)[i] == if i < |pieces| - 1 then WithoutFinalCarriageReturn(pieces[i]) else pieces[i]
      ensures '\n' !in DropCarriageReturns(pieces)[i]
    {
      SplitLineAt(pieces, i);
    }
  }

  lemma SplitLineAt(pieces: seq<string>, i: nat)
    requires i < |pieces|
    requires forall k :: 0 <= k < |pieces| ==> '\n' !in pieces[k]
    ensures DropCarriageReturns(pieces)[i] == if i < |pieces| - 1 then WithoutFinalCarriageReturn(pieces[i]) else pieces[i]
    ensures '\n' !in DropCarriageReturns(pieces)[i]
  {
    DropCarriageReturnsAt(pieces, i);
    var line := DropCarriageReturns(pieces)[i];
    assert StartsWith(pieces[i], line);
    assert line == pieces[i][..|line|];
  }

  /** Text without carriage returns splits into lines exactly at its line feeds. */
  lemma SplitLinesWithoutCarriageReturns(content: string)
    requires '\r' !in content
    ensures SplitLines(content) == Split(content, '\n')
  {
    var pieces := Split(content, '\n');
    SplitOmits(content, '\n', '\r');
    SplitLinesPieces(content);
    forall i | 0 <= i < |pieces| - 1
      ensures WithoutFinalCarriageReturn(pieces[i]) == pieces[i]
    {
      assert !EndsWith(pieces[i], "\r") by {
        if |pieces[i]| > 0 {
          assert pieces[i][|pieces[i]| - 1] != '\r';
        }
      }
    }
  }

  /** A join starts with its first part and ends with its last. */
  lemma {:induction false} JoinEnds(parts: seq<string>, sep: string)
    requires |parts| > 0
    ensures StartsWith(Join(parts, sep), parts[0])
    ensures EndsWith(Join(parts, sep), parts[|parts| - 1])
  {
    if |parts| > 1 {
      var tail := Join(parts[1..], sep);
      JoinEnds(parts[1..], sep);
      var j := parts[0] + sep + tail;
      assert j[..|parts[0]|] == parts[0];
      assert j[|j| - |tail|..] == tail;
      assert tail[|tail| - |parts[|parts| - 1]|..] == parts[|parts| - 1];
      assert j[|j| - |parts[|parts| - 1]|..] == tail[|tail| - |parts[|parts| - 1]|..];
    }
  }
}
