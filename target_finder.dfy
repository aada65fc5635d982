/**
 * Finding the Hydra `_target_` reference for a clicked line of a YAML file
 * (src/yamlUtils.ts). The YAML parser is not modelled: its result is an input,
 * `None` standing for a document that fails to parse.
 */
module TargetFinder {
  import opened Wrappers
  import opened Strings

  /**
   * A parsed YAML value. Mapping keys keep their order of appearance. An alias
   * is a copy of its anchored subtree; a tree cannot express a cyclic one.
   */
  datatype Node =
    | Mapping(entries: seq<Entry>)
    | Sequence(items: seq<Node>)
    | Str(text: string)
    | Scalar          // a number or a boolean
    | Null

  datatype Entry = Entry(key: string, value: Node)

  const TargetKey: string := "_target_"

  /**
   * The non-null objects: mappings and sequences. Only these are accepted as the
   * parsed document (src/yamlUtils.ts:18) and descended into (src/yamlUtils.ts:56).
   */
  predicate IsObject(n: Node) {
    n.Mapping? || n.Sequence?
  }

  /** The value stored under `key`: that of the first entry with this key. */
  function Lookup(entries: seq<Entry>, key: string): (r: Option<Node>)
    ensures r.Some? ==> exists i :: 0 <= i < |entries| && entries[i] == Entry(key, r.value)
    ensures r.None? ==> forall i :: 0 <= i < |entries| ==> entries[i].key != key
  {
    if |entries| == 0 then None
    else if entries[0].key == key then Some(entries[0].value)
    else Lookup(entries[1..], key)
  }

  /**
   * The target a node contributes itself: the `_target_` of a mapping when it
   * is a non-empty string (a truthy string). Sequences have no `_target_`.
   */
  function OwnTarget(n: Node): (r: seq<string>)
    ensures |r| <= 1
    ensures r != [] ==> n.Mapping? && r[0] != "" && Lookup(n.entries, TargetKey) == Some(Str(r[0]))
    ensures forall t :: n.Mapping? && Lookup(n.entries, TargetKey) == Some(Str(t)) && t != "" ==> r == [t]
  {
    if n.Mapping? then
      match Lookup(n.entries, TargetKey)
      case Some(Str(t)) => if t != "" then [t] else []
      case _ => []
    else []
  }

  /** All targets below and at `n`, a mapping's own before its children's, children in order. No target is empty. */
  function Targets(n: Node): (r: seq<string>)
    ensures forall i :: 0 <= i < |r| ==> r[i] != ""
    decreases n, 1
  {
    match n
    case Mapping(entries) => OwnTarget(n) + EntryTargets(entries)
    case Sequence(items) => ItemTargets(items)
    case _ => []
  }

  function ItemTargets(items: seq<Node>): (r: seq<string>)
    ensures forall i :: 0 <= i < |r| ==> r[i] != ""
    decreases items, 0
  {
    if |items| == 0 then [] else Targets(items[0]) + ItemTargets(items[1..])
  }

  function EntryTargets(entries: seq<Entry>): (r: seq<string>)
    ensures forall i :: 0 <= i < |r| ==> r[i] != ""
    decreases entries, 0
  {
    if |entries| == 0 then [] else Targets(entries[0].value) + EntryTargets(entries[1..])
  }

  // ----- A second description of the same list: the nodes in pre-order -----

  /** Every node of the tree rooted at `n`, in pre-order. */
  function Preorder(n: Node): (r: seq<Node>)
    ensures |r| >= 1 && r[0] == n
    decreases n, 1
  {
    match n
    case Mapping(entries) => [n] + EntryPreorder(entries)
    case Sequence(items) => [n] + ItemPreorder(items)
    case _ => [n]
  }

  function ItemPreorder(items: seq<Node>): seq<Node>
    decreases items, 0
  {
    if |items| == 0 then [] else Preorder(items[0]) + ItemPreorder(items[1..])
  }

  function EntryPreorder(entries: seq<Entry>): seq<Node>
    decreases entries, 0
  {
    if |entries| == 0 then [] else Preorder(entries[0].value) + EntryPreorder(entries[1..])
  }

  /** The own targets of a list of nodes, in list order. */
  function OwnTargets(nodes: seq<Node>): seq<string> {
    if |nodes| == 0 then [] else OwnTarget(nodes[0]) + OwnTargets(nodes[1..])
  }

  lemma {:induction false} OwnTargetsAppend(a: seq<Node>, b: seq<Node>)
    ensures OwnTargets(a + b) == OwnTargets(a) + OwnTargets(b)
  {
    if |a| == 0 {
      assert a + b == b;
    } else {
      assert (a + b)[1..] == a[1..] + b;
      OwnTargetsAppend(a[1..], b);
    }
  }

  /**
   * The collected list is the list of own targets of all nodes in pre-order:
   * every truthy string `_target_` of every mapping appears, once per mapping,
   * in document order, and nothing else does.
   */
  lemma {:induction false} TargetsArePreorderOwnTargets(n: Node)
    ensures Targets(n) == OwnTargets(Preorder(n))
    decreases n, 1
  {
    match n
    case Mapping(entries) =>
      EntriesArePreorderOwnTargets(entries);
      OwnTargetsAppend([n], EntryPreorder(entries));
    case Sequence(items) =>
      ItemsArePreorderOwnTargets(items);
      OwnTargetsAppend([n], ItemPreorder(items));
    case _ =>
  }

  lemma {:induction false} ItemsArePreorderOwnTargets(items: seq<Node>)
    ensures ItemTargets(items) == OwnTargets(ItemPreorder(items))
    decreases items, 0
  {
    if |items| > 0 {
      TargetsArePreorderOwnTargets(items[0]);
      ItemsArePreorderOwnTargets(items[1..]);
      OwnTargetsAppend(Preorder(items[0]), ItemPreorder(items[1..]));
    }
  }

  lemma {:induction false} EntriesArePreorderOwnTargets(entries: seq<Entry>)
    ensures EntryTargets(entries) == OwnTargets(EntryPreorder(entries))
    decreases entries, 0
  {
    if |entries| > 0 {
      TargetsArePreorderOwnTargets(entries[0].value);
      EntriesArePreorderOwnTargets(entries[1..]);
      OwnTargetsAppend(Preorder(entries[0].value), EntryPreorder(entries[1..]));
    }
  }

  /** Children's targets concatenate in child order, duplicates included. */
  lemma {:induction false} ItemTargetsAppend(a: seq<Node>, b: seq<Node>)
    ensures ItemTargets(a + b) == ItemTargets(a) + ItemTargets(b)
  {
    if |a| == 0 {
      assert a + b == b;
    } else {
      assert (a + b)[1..] == a[1..] + b;
      ItemTargetsAppend(a[1..], b);
    }
  }

  lemma {:induction false} EntryTargetsAppend(a: seq<Entry>, b: seq<Entry>)
    ensures EntryTargets(a + b) == EntryTargets(a) + EntryTargets(b)
  {
    if |a| == 0 {
      assert a + b == b;
    } else {
      assert (a + b)[1..] == a[1..] + b;
      EntryTargetsAppend(a[1..], b);
    }
  }

  /**
   * `collectTargets(obj, acc)`: appends the targets of `obj` to the caller's
   * accumulator, a mapping's own `_target_` first, then sequence elements or
   * mapping values in order.
   */
  method CollectTargets(obj: Node, acc: seq<string>) returns (out: seq<string>)
    ensures out == acc + Targets(obj)
    decreases obj, 1
  {
    out := acc;
    if IsObject(obj) {
      if obj.Mapping? {
        var t := Lookup(obj.entries, TargetKey);
        if t.Some? && t.value.Str? && t.value.text != "" {
          out := out + [t.value.text];
        }
      }
      if obj.Sequence? {
        out := CollectItems(obj.items, out);
      } else {
        out := CollectEntries(obj.entries, out);
      }
    }
  }

  /** The loop of `collectTargets` over the elements of a sequence. */
  method CollectItems(items: seq<Node>, acc: seq<string>) returns (out: seq<string>)
    ensures out == acc + ItemTargets(items)
    decreases items, 0
  {
    out := acc;
    var i := 0;
    while i < |items|
      invariant 0 <= i <= |items|
      invariant out == acc + ItemTargets(items[..i])
    {
      out := CollectTargets(items[i], out);
      ItemTargetsAppend(items[..i], [items[i]]);
      assert items[..i + 1] == items[..i] + [items[i]];
      i := i + 1;
    }
    assert items[..i] == items;
  }

  /** The loop of `collectTargets` over the values of a mapping, in key order. */
  method CollectEntries(entries: seq<Entry>, acc: seq<string>) returns (out: seq<string>)
    ensures out == acc + EntryTargets(entries)
    decreases entries, 0
  {
    out := acc;
    var i := 0;
    while i < |entries|
      invariant 0 <= i <= |entries|
      invariant out == acc + EntryTargets(entries[..i])
    {
      out := CollectTargets(entries[i].value, out);
      EntryTargetsAppend(entries[..i], [entries[i]]);
      assert entries[..i + 1] == entries[..i] + [entries[i]];
      i := i + 1;
    }
    assert entries[..i] == entries;
  }

  /** The regular expression `[A-Za-z_0-9]+\.[A-Za-z_0-9]+` matches at a dot at index `i`. */
  predicate DotBetweenWords(line: string, i: nat) {
    0 < i < |line| - 1 && line[i] == '.' && IsWordChar(line[i - 1]) && IsWordChar(line[i + 1])
  }

  /** The clicked line may hold a target: it mentions `_target_` or contains a dotted word. */
  predicate LineGuard(line: string)
    ensures LineGuard(line) ==> Contains(line, TargetKey) || '.' in line
  {
    Contains(line, TargetKey) || exists i: nat | i < |line| :: DotBetweenWords(line, i)
  }

  /**
   * `findHydraTargetValue`: `parsed` is the parser's result (None on a parse
   * error) and `line` the text of the clicked line.
   */
  method FindHydraTargetValue(parsed: Option<Node>, line: string) returns (r: Option<string>)
    ensures parsed.None? || !IsObject(parsed.value) || !LineGuard(line) ==> r.None?
    ensures parsed.Some? && IsObject(parsed.value) && LineGuard(line) ==>
      var ts := Targets(parsed.value);
      && (|ts| == 0 ==> r.None?)
      && (|ts| == 1 ==> r == Some(ts[0]))
      && (|ts| > 1 && (exists k :: 0 <= k < |ts| && Contains(line, ts[k])) ==>
            exists k :: 0 <= k < |ts| && r == Some(ts[k]) && Contains(line, ts[k])
                        && forall j :: 0 <= j < k ==> !Contains(line, ts[j]))
      && (|ts| > 1 && (forall k :: 0 <= k < |ts| ==> !Contains(line, ts[k])) ==> r == Some(ts[0]))
    ensures r.Some? ==> parsed.Some? && r.value in Targets(parsed.value)
  {
    if parsed.None? {
      return None;
    }
    var root := parsed.value;
    if !IsObject(root) {
      return None;
    }
    if !LineGuard(line) {
      return None;
    }
    var all := CollectTargets(root, []);
    assert all == Targets(root);
    if |all| == 0 {
      return None;
    }
    if |all| == 1 {
      return Some(all[0]);
    }
    var k := 0;
    while k < |all|
      invariant 0 <= k <= |all|
      invariant forall j :: 0 <= j < k ==> !Contains(line, all[j])
    {
      if Contains(line, all[k]) {
        return Some(all[k]);
      }
      k := k + 1;
    }
    return Some(all[0]);
  }
}
