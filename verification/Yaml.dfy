/**
 * YAML documents as values, the deep merge of two documents, and the merge of
 * by-class overrides.
 */
module Yaml {
  import opened Common

  /** The kinds of nodes; an undefined node is never part of a document. */
  datatype Node =
    | Undefined
    | Null
    | Scalar(text: string)
    | Map(entries: map<string, Node>)
    | Sequence(items: seq<Node>)

  // ---------------------------------------------------------------------
  // Merging two documents
  // ---------------------------------------------------------------------

  /** The entry of a key; null when there is none. */
  function Entry(t: Node, key: string): Node {
    if t.Map? && key in t.entries then t.entries[key] else Null
  }

  /** What a key of the target denotes: its entry, or a new undefined node. */
  function Slot(t: Node, key: string): Node {
    if t.Map? && key in t.entries then t.entries[key] else Undefined
  }

  function Items(t: Node): seq<Node> {
    if t.Sequence? then t.items else []
  }

  /**
   * `merge_node`: the target after the merge, or nothing when it throws. A key
   * of the source whose new entry stays undefined is not seen in the target,
   * and an undefined target stays undefined until something in it is defined.
   */
  function Merged(t: Node, s: Node): (m: Option<Node>)
    decreases s, 0
  {
    match s
    case Undefined => None
    case Null => None
    case Scalar(_) => Some(s)
    case Map(entries) =>
      if entries == map[] then Some(t)
      else if TakesEntries(t) then
        if forall k | k in entries :: Merged(Slot(t, k), entries[k]).Some? then
          var keys := Keys(t) + set k | k in entries && Merged(Slot(t, k), entries[k]) != Some(Undefined);
          if t.Undefined? && keys == {} then Some(Undefined)
          else
            Some(Map(map k | k in keys ::
                       if k in entries then Merged(Slot(t, k), entries[k]).value else t.entries[k]))
        else None
      else None
    case Sequence(items) =>
      if items == [] then Some(t)
      else if TakesItems(t) then
        var merged := MergedItems(Items(t), items);
        if merged.Some? then Some(Sequence(merged.value)) else None
      else None
  }

  /** `merge_sequences`: items beyond the target's are appended as they are. */
  function MergedItems(t: seq<Node>, s: seq<Node>): (m: Option<seq<Node>>)
    decreases s, 1
  {
    if s == [] then Some(t)
    else if t == [] then Some(s)
    else
      var first, rest := Merged(t[0], s[0]), MergedItems(t[1..], s[1..]);
      if first.Some? && rest.Some? then Some([first.value] + rest.value) else None
  }

  function Keys(t: Node): set<string> {
    if t.Map? then t.entries.Keys else {}
  }

  /** The target can take in the entries of a map, or the items of a sequence. */
  predicate TakesEntries(t: Node) {
    t.Map? || t.Null? || t.Undefined?
  }

  predicate TakesItems(t: Node) {
    t.Sequence? || t.Null? || t.Undefined?
  }

  lemma MergedMap(t: Node, s: Node)
    requires s.Map? && s.entries != map[] && Merged(t, s).Some?
    ensures TakesEntries(t)
    ensures var m := Merged(t, s).value;
            && Keys(t) <= Keys(m) <= Keys(t) + s.entries.Keys
            && (forall k | k in Keys(m) :: k in Keys(t) || Slot(m, k) != Undefined)
            && (forall k | k in s.entries :: Merged(Slot(t, k), s.entries[k]) == Some(Slot(m, k)))
            && (forall k | k !in s.entries :: Slot(m, k) == Slot(t, k))
            && (m.Map? || m.Undefined?)
            && (m.Undefined? <==> t.Undefined? && Keys(m) == {})
  {
  }

  predicate IsEmpty(n: Node) {
    n == Map(map[]) || n == Sequence([])
  }

  /** What kind of node a merge leaves: an empty container changes nothing, and anything else decides the kind. */
  lemma MergedKind(t: Node, s: Node)
    requires Merged(t, s).Some?
    ensures var m := Merged(t, s).value;
            && !s.Null? && !s.Undefined?
            && (IsEmpty(s) ==> m == t)
            && (s.Scalar? ==> m == s)
            && (!IsEmpty(s) && s.Sequence? ==> m.Sequence? && (t.Sequence? || t.Null? || t.Undefined?))
            && (!IsEmpty(s) && s.Map? ==>
                  (m.Map? || (m == t == Undefined)) && (t.Map? || t.Null? || t.Undefined?))
  {
  }

  lemma DefinedResult(t: Node, s: Node)
    requires t != Undefined
    ensures Merged(t, s) != Some(Undefined)
  {
    if Merged(t, s) == Some(Undefined) {
      DefinedStays(t, s);
    }
  }

  /** A merge never makes a defined node undefined. */
  lemma DefinedStays(t: Node, s: Node)
    requires Merged(t, s).Some? && Merged(t, s).value == Undefined
    ensures t == Undefined
  {
  }

  lemma {:induction false} MergedItemsAt(t: seq<Node>, s: seq<Node>, i: nat)
    requires MergedItems(t, s).Some?
    ensures var m := MergedItems(t, s).value;
            && |m| == (if |t| < |s| then |s| else |t|)
            && (i < |t| && i < |s| ==> Merged(t[i], s[i]).Some? && m[i] == Merged(t[i], s[i]).value)
            && (i < |s| && i >= |t| ==> m[i] == s[i])
            && (i < |t| && i >= |s| ==> m[i] == t[i])
  {
    if s != [] && t != [] {
      if i > 0 {
        MergedItemsAt(t[1..], s[1..], i - 1);
      } else {
        MergedItemsAt(t[1..], s[1..], 0);
      }
    }
  }

  // ---------------------------------------------------------------------
  // Merging one key, or one item, at a time
  // ---------------------------------------------------------------------

  /** The node after one of its keys is set; a null node becomes a map. */
  function SetKey(n: Node, key: string, child: Node): Node {
    Map((if n.Map? then n.entries else map[])[key := child])
  }

  /** A loop over keys moves them from those to do to those done. */
  lemma MoveKey(keys: set<string>, done: set<string>, k: string)
    requires keys !! done && k in keys
    ensures keys - {k} !! done + {k}
    ensures (keys - {k}) + (done + {k}) == keys + done
  {
  }

  /** The map with only some of its keys. */
  ghost function Restricted(n: Node, keys: set<string>): (r: Node)
    requires n.Map? && keys <= n.entries.Keys
    ensures r.Map? && r.entries.Keys == keys
  {
    Map(map k | k in keys :: n.entries[k])
  }

  lemma RestrictedStep(n: Node, keys: set<string>, k: string)
    requires n.Map? && keys <= n.entries.Keys && k in n.entries
    ensures Restricted(n, keys + {k}) == SetKey(Restricted(n, keys), k, n.entries[k])
  {
    assert Restricted(n, keys + {k}).entries == Restricted(n, keys).entries[k := n.entries[k]];
  }

  lemma RestrictedAll(n: Node)
    requires n.Map?
    ensures Restricted(n, Keys(n)) == n
  {
    assert Restricted(n, Keys(n)).entries == n.entries;
  }

  /** The node after one of its keys is merged; a new entry that is undefined is not seen. */
  function SetSlot(n: Node, key: string, child: Node): Node {
    if child.Undefined? && key !in Keys(n) then if n.Null? then Map(map[]) else n
    else SetKey(n, key, child)
  }

  lemma SlotsAfterSet(n: Node, key: string, child: Node)
    requires TakesEntries(n)
    ensures var r := SetSlot(n, key, child);
            && (r.Map? || (r.Undefined? && n.Undefined? && child.Undefined?))
            && Keys(r) == (if child.Undefined? then Keys(n) else Keys(n) + {key})
            && forall j :: Slot(r, j) == if j == key then child else Slot(n, j)
  {
  }

  /** `m` is the target with the keys `done` of the source merged into it. */
  ghost predicate MergedSoFar(t: Node, s: Node, done: set<string>, m: Node) {
    s.Map? && done <= s.entries.Keys && Merged(t, Restricted(s, done)) == Some(m)
  }

  /** What every merge of entries leaves: the target's keys, and new keys that are defined. */
  ghost predicate ResultShape(t: Node, m: Node) {
    && (m.Map? || m.Undefined?)
    && (m.Undefined? <==> t.Undefined? && Keys(m) == {})
    && Keys(t) <= Keys(m)
    && forall k | k in Keys(m) :: k in Keys(t) || Slot(m, k) != Undefined
  }

  lemma SetKeepsShape(t: Node, m: Node, key: string, child: Node)
    requires TakesEntries(t) && (m == t || ResultShape(t, m))
    requires key in Keys(m) ==> key in Keys(t)
    ensures ResultShape(t, SetSlot(m, key, child))
  {
    SlotsAfterSet(m, key, child);
  }

  /** A map with one more key, merged after the others. */
  lemma MergeOneKey(t: Node, s: Node, done: set<string>, m: Node, k: string)
    requires TakesEntries(t) && MergedSoFar(t, s, done, m)
    requires k in s.entries && k !in done
    ensures TakesEntries(m) && Slot(m, k) == Slot(t, k)
    ensures var child := Merged(Slot(m, k), s.entries[k]);
            if child.Some? then MergedSoFar(t, s, done + {k}, SetSlot(m, k, child.value))
            else Merged(t, s).None?
  {
    if done != {} {
      MergedMap(t, Restricted(s, done));
    }
    assert Slot(m, k) == Slot(t, k);
    var child := Merged(Slot(m, k), s.entries[k]);
    if child.Some? {
      KeyMerged(t, s, done, m, k, child.value);
    }
  }

  lemma KeyMerged(t: Node, s: Node, done: set<string>, m: Node, k: string, child: Node)
    requires TakesEntries(t) && MergedSoFar(t, s, done, m)
    requires k in s.entries && k !in done && Merged(Slot(t, k), s.entries[k]) == Some(child)
    ensures MergedSoFar(t, s, done + {k}, SetSlot(m, k, child))
  {
    MergedMore(t, s, done, m, k);
    var r, n := Merged(t, Restricted(s, done + {k})).value, SetSlot(m, k, child);
    forall j
      ensures Slot(r, j) == Slot(n, j)
    {
      SameSlotAfter(t, s, done, m, k, child, j);
    }
    MergedMap(t, Restricted(s, done + {k}));
    if done != {} {
      MergedMap(t, Restricted(s, done));
    }
    SetKeepsShape(t, m, k, child);
    SameSlots(t, r, n);
  }

  lemma SameSlotAfter(t: Node, s: Node, done: set<string>, m: Node, k: string, child: Node, j: string)
    requires TakesEntries(t) && MergedSoFar(t, s, done, m)
    requires k in s.entries && k !in done && Merged(Slot(t, k), s.entries[k]) == Some(child)
    requires Merged(t, Restricted(s, done + {k})).Some?
    ensures Slot(Merged(t, Restricted(s, done + {k})).value, j) == Slot(SetSlot(m, k, child), j)
  {
    MergedMap(t, Restricted(s, done + {k}));
    if done != {} {
      MergedMap(t, Restricted(s, done));
    }
    SlotsAfterSet(m, k, child);
    if j in done {
      assert Merged(Slot(t, j), s.entries[j]) == Some(Slot(m, j));
    }
  }

  lemma MergedMore(t: Node, s: Node, done: set<string>, m: Node, k: string)
    requires TakesEntries(t) && MergedSoFar(t, s, done, m)
    requires k in s.entries && Merged(Slot(t, k), s.entries[k]).Some?
    ensures Merged(t, Restricted(s, done + {k})).Some?
  {
    if done != {} {
      MergedMap(t, Restricted(s, done));
    }
  }

  /** Two results for one target with the same slots are the same. */
  lemma SameSlots(t: Node, m: Node, n: Node)
    requires ResultShape(t, m) && ResultShape(t, n)
    requires forall k :: Slot(m, k) == Slot(n, k)
    ensures m == n
  {
    assert forall k | k in Keys(m) :: Slot(n, k) == Slot(m, k);
    assert forall k | k in Keys(n) :: Slot(m, k) == Slot(n, k);
    assert Keys(m) == Keys(n);
    if m.Map? && n.Map? {
      forall k | k in m.entries
        ensures m.entries[k] == n.entries[k]
      {
        assert Slot(m, k) == Slot(n, k);
      }
      assert m.entries == n.entries;
    }
  }

  /** Merging item by item from the front. */
  lemma {:induction false} MergedItemsPrefix(t: seq<Node>, s: seq<Node>, i: nat, m: seq<Node>)
    requires i <= |s| && |m| == (if |t| < i then i else |t|)
    requires MergedItems(t, s[..i]) == Some(m)
    requires i < |s|
    ensures i >= |t| ==> MergedItems(t, s[..i + 1]) == Some(m + [s[i]])
    ensures i < |t| ==> m[i] == t[i]
    ensures i < |t| ==>
              MergedItems(t, s[..i + 1])
              == if Merged(t[i], s[i]).Some? then Some(m[i := Merged(t[i], s[i]).value]) else None
    decreases |t|
  {
    MergedItemsAt(t, s[..i], i);
    if t == [] {
      assert s[..i] + [s[i]] == s[..i + 1];
    } else if i == 0 {
      assert s[..1] == [s[0]] && s[..0] == [];
      assert s[..1][1..] == [] && m == t;
      assert Merged(t[0], s[0]).Some? ==>
               [Merged(t[0], s[0]).value] + t[1..] == m[0 := Merged(t[0], s[0]).value];
    } else {
      assert s[..i][1..] == s[1..][..i - 1] && s[..i + 1][1..] == s[1..][..i];
      MergedItemsAt(t[1..], s[1..][..i - 1], 0);
      MergedItemsPrefix(t[1..], s[1..], i - 1, m[1..]);
      assert m == [m[0]] + m[1..];
      var first, rest := Merged(t[0], s[0]).value, MergedItems(t[1..], s[1..][..i]);
      assert m[0] == first;
      assert MergedItems(t, s[..i + 1]) == if rest.Some? then Some([first] + rest.value) else None;
      if i >= |t| {
        assert [first] + (m[1..] + [s[i]]) == m + [s[i]];
      } else if Merged(t[i], s[i]).Some? {
        assert [first] + m[1..][i - 1 := Merged(t[i], s[i]).value] == m[i := Merged(t[i], s[i]).value];
      }
    }
  }

  /** `m` is the target with the first `i` items of the source merged into it. */
  ghost predicate MergedItemsSoFar(t: Node, s: seq<Node>, i: nat, m: Node) {
    && i <= |s|
    && TakesItems(t)
    && (if i == 0 then m == t else m.Sequence?)
    && MergedItems(Items(t), s[..i]) == Some(Items(m))
  }

  lemma MergeOneItem(t: Node, s: seq<Node>, i: nat, m: Node)
    requires MergedItemsSoFar(t, s, i, m) && i < |s|
    ensures i >= |Items(m)| ==> MergedItemsSoFar(t, s, i + 1, Sequence(Items(m) + [s[i]]))
    ensures i < |Items(m)| ==>
              var r := Merged(Items(m)[i], s[i]);
              if r.Some? then MergedItemsSoFar(t, s, i + 1, Sequence(Items(m)[i := r.value]))
              else Merged(t, Sequence(s)).None?
  {
    MergedItemsAt(Items(t), s[..i], 0);
    MergedItemsPrefix(Items(t), s, i, Items(m));
    if MergedItems(Items(t), s[..i + 1]).None? {
      MergedItemsFail(Items(t), s, i + 1);
    }
  }

  lemma MergedAllItems(t: Node, s: seq<Node>, m: Node)
    requires MergedItemsSoFar(t, s, |s|, m)
    ensures Merged(t, Sequence(s)) == Some(m)
  {
    assert s[..|s|] == s;
  }

  /** A merge that fails on some items fails on more. */
  lemma {:induction false} MergedItemsFail(t: seq<Node>, s: seq<Node>, i: nat)
    requires i <= |s| && MergedItems(t, s[..i]).None?
    ensures MergedItems(t, s).None?
    decreases |t|
  {
    if t != [] && i > 0 {
      assert s[..i][1..] == s[1..][..i - 1];
      if Merged(t[0], s[0]).Some? {
        MergedItemsFail(t[1..], s[1..], i - 1);
      }
    }
  }

  // ---------------------------------------------------------------------
  // What is found at a path
  // ---------------------------------------------------------------------

  datatype Step = Key(name: string) | Index(i: nat)

  /** A leaf, nothing, or a leaf that stands where the path goes on. */
  datatype Found = Text(text: string) | Miss | Blocked

  function Child(n: Node, step: Step): Node {
    match step
    case Key(name) => Entry(n, name)
    case Index(i) => if n.Sequence? && i < |n.items| then n.items[i] else Null
  }

  function Probe(n: Node, path: seq<Step>): Found
    decreases |path|
  {
    if path == [] then if n.Scalar? then Text(n.text) else Miss
    else if n.Scalar? then Blocked
    else Probe(Child(n, path[0]), path[1..])
  }

  /** The number of items of the sequence at a path. */
  function Length(n: Node, path: seq<Step>): nat
    decreases |path|
  {
    if path == [] then |Items(n)|
    else if n.Scalar? then 0
    else Length(Child(n, path[0]), path[1..])
  }

  /** What the source has, otherwise what the target has. */
  function Override(t: Found, s: Found): Found {
    if s.Miss? then t else s
  }

  /** There is nothing to find in a null or an undefined node. */
  lemma {:induction false} ProbeNull(path: seq<Step>)
    ensures Probe(Null, path) == Miss && Length(Null, path) == 0
    ensures Probe(Undefined, path) == Miss && Length(Undefined, path) == 0
  {
    if path != [] {
      ProbeNull(path[1..]);
    }
  }

  /** A missing entry looks the same, undefined or null. */
  lemma ProbeSlot(n: Node, key: string, path: seq<Step>)
    ensures Probe(Slot(n, key), path) == Probe(Entry(n, key), path)
    ensures Length(Slot(n, key), path) == Length(Entry(n, key), path)
  {
    ProbeNull(path);
  }

  /**
   * Deep merge is right-biased: whenever a merge succeeds, what is found at any
   * path is what the source has there, otherwise what the target has, and a
   * sequence has the longer of the two lengths unless a leaf of the source
   * replaces it.
   */
  lemma {:induction false} MergeRightBiased(t: Node, s: Node, path: seq<Step>)
    requires Merged(t, s).Some?
    ensures RightBiased(t, s, Merged(t, s).value, path)
    decreases |path|
  {
    if path == [] {
      if s.Sequence? && s.items != [] {
        MergedItemsAt(Items(t), s.items, 0);
      }
    } else if EmptyContainer(s) {
      ProbeNull(path[1..]);
      EmptyChild(s, path[0]);
    } else if s.Map? {
      MergeEntryRightBiased(t, s, path);
    } else if s.Sequence? {
      MergeItemRightBiased(t, s, path);
    }
  }

  ghost predicate RightBiased(t: Node, s: Node, m: Node, path: seq<Step>) {
    && Probe(m, path) == Override(Probe(t, path), Probe(s, path))
    && Length(m, path)
       == (if !Probe(s, path).Miss? || Length(t, path) < Length(s, path) then Length(s, path)
           else Length(t, path))
  }

  lemma {:induction false} MergeEntryRightBiased(t: Node, s: Node, path: seq<Step>)
    requires Merged(t, s).Some? && s.Map? && s.entries != map[] && path != []
    ensures RightBiased(t, s, Merged(t, s).value, path)
    decreases |path|, 0
  {
    var m, step, rest := Merged(t, s).value, path[0], path[1..];
    MergedMap(t, s);
    ProbeNull(rest);
    if step.Key? {
      var k := step.name;
      ProbeSlot(t, k, rest);
      ProbeSlot(m, k, rest);
      if k in s.entries {
        MergeRightBiased(Slot(t, k), s.entries[k], rest);
      } else {
        assert Slot(m, k) == Slot(t, k);
      }
    }
  }

  ghost predicate EmptyContainer(s: Node) {
    s == Map(map[]) || s == Sequence([])
  }

  lemma EmptyChild(s: Node, step: Step)
    requires EmptyContainer(s)
    ensures Child(s, step) == Null
  {
  }

  lemma {:induction false} MergeItemRightBiased(t: Node, s: Node, path: seq<Step>)
    requires Merged(t, s).Some? && s.Sequence? && s.items != [] && path != []
    ensures RightBiased(t, s, Merged(t, s).value, path)
    decreases |path|, 0
  {
    var m, step, rest := Merged(t, s).value, path[0], path[1..];
    ProbeNull(rest);
    assert m == Sequence(MergedItems(Items(t), s.items).value);
    if step.Index? {
      MergedItemsAt(Items(t), s.items, step.i);
      if step.i < |Items(t)| && step.i < |s.items| {
        MergeRightBiased(t.items[step.i], s.items[step.i], rest);
      }
    }
  }

  // ---------------------------------------------------------------------
  // When a merge succeeds
  // ---------------------------------------------------------------------

  /** No leaf stands where the other tree has a map or a sequence, and no map where it has a sequence. */
  ghost predicate Compatible(a: Node, b: Node)
    decreases a
  {
    || a.Null? || b.Null? || a.Undefined? || b.Undefined?
    || (a.Scalar? && b.Scalar?)
    || (a.Map? && b.Map? && forall k | k in a.entries && k in b.entries :: Compatible(a.entries[k], b.entries[k]))
    || (a.Sequence? && b.Sequence?
        && forall i | 0 <= i < |a.items| && i < |b.items| :: Compatible(a.items[i], b.items[i]))
  }

  ghost predicate NoNulls(n: Node) {
    match n
    case Undefined => false
    case Null => false
    case Scalar(_) => true
    case Map(entries) => forall k | k in entries :: NoNulls(entries[k])
    case Sequence(items) => forall i | 0 <= i < |items| :: NoNulls(items[i])
  }

  lemma {:induction false} CompatibleSymmetric(a: Node, b: Node)
    requires Compatible(a, b)
    ensures Compatible(b, a)
    decreases a
  {
    if a.Map? && b.Map? {
      forall k | k in a.entries && k in b.entries
        ensures Compatible(b.entries[k], a.entries[k])
      {
        CompatibleSymmetric(a.entries[k], b.entries[k]);
      }
    } else if a.Sequence? && b.Sequence? {
      forall i | 0 <= i < |a.items| && i < |b.items|
        ensures Compatible(b.items[i], a.items[i])
      {
        CompatibleSymmetric(a.items[i], b.items[i]);
      }
    }
  }

  lemma {:induction false} ItemsMerge(t: seq<Node>, s: seq<Node>)
    requires forall i | 0 <= i < |t| && i < |s| :: Merged(t[i], s[i]).Some?
    ensures MergedItems(t, s).Some?
  {
    if t != [] && s != [] {
      assert Merged(t[0], s[0]).Some?;
      forall i | 0 <= i < |t[1..]| && i < |s[1..]|
        ensures Merged(t[1..][i], s[1..][i]).Some?
      {
        assert Merged(t[i + 1], s[i + 1]).Some?;
      }
      ItemsMerge(t[1..], s[1..]);
    }
  }

  /** A merge of compatible trees succeeds when the source has no null. */
  lemma {:induction false} MergeSucceeds(t: Node, s: Node)
    requires Compatible(t, s) && NoNulls(s)
    ensures Merged(t, s).Some?
    decreases s
  {
    if s.Map? {
      forall k | k in s.entries
        ensures Merged(Slot(t, k), s.entries[k]).Some?
      {
        MergeSucceeds(Slot(t, k), s.entries[k]);
      }
    } else if s.Sequence? {
      forall i | 0 <= i < |Items(t)| && i < |s.items|
        ensures Merged(Items(t)[i], s.items[i]).Some?
      {
        MergeSucceeds(Items(t)[i], s.items[i]);
      }
      ItemsMerge(Items(t), s.items);
    }
  }

  /** Following the path through the source leads to a null node, without leaving the target's items. */
  predicate MeetsNull(t: Node, s: Node, path: seq<Step>)
    decreases |path|
  {
    if path == [] then s.Null? || s.Undefined?
    else
      match path[0]
      case Key(k) => s.Map? && k in s.entries && MeetsNull(Slot(t, k), s.entries[k], path[1..])
      case Index(i) =>
        s.Sequence? && i < |s.items| && i < |Items(t)| && MeetsNull(Items(t)[i], s.items[i], path[1..])
  }

  lemma {:induction false} NullThrows(t: Node, s: Node, path: seq<Step>)
    requires MeetsNull(t, s, path)
    ensures Merged(t, s).None?
    decreases |path|
  {
    if path != [] {
      match path[0]
      case Key(k) =>
        NullThrows(Slot(t, k), s.entries[k], path[1..]);
      case Index(i) =>
        NullThrows(Items(t)[i], s.items[i], path[1..]);
        if MergedItems(Items(t), s.items).Some? {
          MergedItemsAt(Items(t), s.items, i);
        }
    }
  }

  /** A merge of compatible trees that throws has met a null. */
  lemma {:induction false} ThrowsAtNull(t: Node, s: Node) returns (path: seq<Step>)
    requires Compatible(t, s) && Merged(t, s).None?
    ensures MeetsNull(t, s, path)
    decreases s
  {
    path := [];
    if s.Map? {
      var k :| k in s.entries && Merged(Slot(t, k), s.entries[k]).None?;
      var rest := ThrowsAtNull(Slot(t, k), s.entries[k]);
      path := [Key(k)] + rest;
    } else if s.Sequence? {
      var i: nat := FailingItem(Items(t), s.items);
      var rest := ThrowsAtNull(Items(t)[i], s.items[i]);
      path := [Index(i)] + rest;
    }
  }

  lemma FailingItem(t: seq<Node>, s: seq<Node>) returns (i: nat)
    requires MergedItems(t, s).None?
    ensures i < |t| && i < |s| && Merged(t[i], s[i]).None?
  {
    if forall j | 0 <= j < |t| && j < |s| :: Merged(t[j], s[j]).Some? {
      ItemsMerge(t, s);
    }
    i :| i < |t| && i < |s| && Merged(t[i], s[i]).None?;
  }

  /**
   * A merge of compatible trees throws if and only if there is a path through
   * the source to a null node that does not leave the target's items. Nulls in
   * appended items do no harm.
   */
  lemma MergeThrows(t: Node, s: Node)
    requires Compatible(t, s)
    ensures Merged(t, s).None? <==> MeetsSomeNull(t, s)
  {
    if Merged(t, s).None? {
      var path := ThrowsAtNull(t, s);
      assert MeetsNull(t, s, path);
    }
    if MeetsSomeNull(t, s) {
      var path: seq<Step> :| MeetsNull(t, s, path);
      NullThrows(t, s, path);
    }
  }

  ghost predicate MeetsSomeNull(t: Node, s: Node) {
    exists path: seq<Step> :: MeetsNull(t, s, path)
  }

  /** A merge keeps the compatibility with a third tree. */
  lemma {:induction false} MergeCompatible(a: Node, b: Node, c: Node)
    requires Compatible(a, c) && Compatible(b, c) && Merged(a, b).Some?
    ensures Compatible(Merged(a, b).value, c)
    decreases b
  {
    if b.Map? && b.entries != map[] {
      MergedMap(a, b);
      var m := Merged(a, b).value;
      if c.Map? {
        forall k | k in Keys(m) && k in c.entries
          ensures Compatible(m.entries[k], c.entries[k])
        {
          assert m.entries[k] == Slot(m, k);
          if k in b.entries {
            MergeCompatible(Slot(a, k), b.entries[k], c.entries[k]);
          }
        }
      }
    } else if b.Sequence? && b.items != [] {
      var m := Merged(a, b).value;
      MergedItemsAt(Items(a), b.items, 0);
      if c.Sequence? {
        forall i | 0 <= i < |m.items| && i < |c.items|
          ensures Compatible(m.items[i], c.items[i])
        {
          MergedItemsAt(Items(a), b.items, i);
          if i < |Items(a)| && i < |b.items| {
            MergeCompatible(Items(a)[i], b.items[i], c.items[i]);
          }
        }
      }
    }
  }

  /** Merging a source without nulls leaves no null behind. */
  lemma {:induction false} MergeHasNoNulls(t: Node, s: Node)
    requires (NoNulls(t) || t.Undefined?) && NoNulls(s) && Merged(t, s).Some?
    ensures var m := Merged(t, s).value; NoNulls(m) || m.Undefined?
    decreases s
  {
    var m := Merged(t, s).value;
    if s.Map? && s.entries != map[] {
      MergedMap(t, s);
      forall k | k in Keys(m)
        ensures NoNulls(m.entries[k])
      {
        assert m.entries[k] == Slot(m, k);
        if k in s.entries {
          MergeHasNoNulls(Slot(t, k), s.entries[k]);
          DefinedEntry(t, s, k);
        }
      }
    } else if s.Sequence? && s.items != [] {
      MergedItemsAt(Items(t), s.items, 0);
      forall i | 0 <= i < |m.items|
        ensures NoNulls(m.items[i])
      {
        MergedItemsAt(Items(t), s.items, i);
        if i < |s.items| && i < |Items(t)| {
          MergeHasNoNulls(Items(t)[i], s.items[i]);
          if m.items[i] == Undefined {
            DefinedStays(Items(t)[i], s.items[i]);
          }
        }
      }
    }
  }

  /** The entries of a merged map are defined when those of the target are. */
  lemma DefinedEntry(t: Node, s: Node, k: string)
    requires s.Map? && k in s.entries && s.entries != map[] && Merged(t, s).Some?
    requires k in Keys(t) ==> Slot(t, k) != Undefined
    requires k in Keys(Merged(t, s).value)
    ensures Slot(Merged(t, s).value, k) != Undefined
  {
    MergedMap(t, s);
    if Slot(Merged(t, s).value, k) == Undefined {
      DefinedStays(Slot(t, k), s.entries[k]);
    }
  }

  // ---------------------------------------------------------------------
  // Algebra of merges
  // ---------------------------------------------------------------------

  /** Both trees look the same at every path. */
  ghost predicate SameLeaves(a: Node, b: Node) {
    forall path: seq<Step> :: Probe(a, path) == Probe(b, path) && Length(a, path) == Length(b, path)
  }

  /**
   * Deep merge is associative on pairwise compatible trees, whatever empty
   * containers there are in them: when the sources have no null, all the merges
   * succeed and the two groupings look the same at every path.
   */
  lemma MergeAssociative(a: Node, b: Node, c: Node)
    requires Compatible(a, b) && Compatible(a, c) && Compatible(b, c)
    requires NoNulls(b) && NoNulls(c)
    ensures var ab, bc := Merged(a, b), Merged(b, c);
            && ab.Some? && bc.Some?
            && Merged(ab.value, c).Some? && Merged(a, bc.value).Some?
            && SameLeaves(Merged(ab.value, c).value, Merged(a, bc.value).value)
  {
    MergeSucceeds(a, b);
    MergeSucceeds(b, c);
    var ab, bc := Merged(a, b).value, Merged(b, c).value;
    MergeCompatible(a, b, c);
    MergeSucceeds(ab, c);
    CompatibleSymmetric(a, b);
    CompatibleSymmetric(a, c);
    MergeCompatible(b, c, a);
    CompatibleSymmetric(bc, a);
    MergeHasNoNulls(b, c);
    if bc == Undefined {
      DefinedStays(b, c);
    }
    MergeSucceeds(a, bc);
    forall path: seq<Step>
      ensures Probe(Merged(ab, c).value, path) == Probe(Merged(a, bc).value, path)
      ensures Length(Merged(ab, c).value, path) == Length(Merged(a, bc).value, path)
    {
      MergeRightBiased(a, b, path);
      MergeRightBiased(b, c, path);
      MergeRightBiased(ab, c, path);
      MergeRightBiased(a, bc, path);
    }
  }

  lemma {:induction false} MergeSelf(n: Node)
    requires NoNulls(n)
    ensures Merged(n, n) == Some(n)
  {
    match n
    case Scalar(_) =>
    case Map(entries) =>
      forall k | k in entries
        ensures Merged(Slot(n, k), entries[k]) == Some(entries[k])
      {
        MergeSelf(entries[k]);
      }
      if entries != map[] {
        MergedMap(n, n);
        var m := Merged(n, n).value;
        forall k | k in entries
          ensures m.entries[k] == entries[k]
        {
          assert m.entries[k] == Slot(m, k);
        }
        assert m.entries == entries;
      }
    case Sequence(items) =>
      forall i | 0 <= i < |items|
        ensures Merged(items[i], items[i]) == Some(items[i])
      {
        MergeSelf(items[i]);
      }
      ItemsMerge(items, items);
      var m := MergedItems(items, items).value;
      MergedItemsAt(items, items, 0);
      forall i | 0 <= i < |items|
        ensures m[i] == items[i]
      {
        MergedItemsAt(items, items, i);
      }
      assert m == items;
  }

  /** Merging the same source again changes nothing. */
  lemma {:induction false} MergeIdempotent(t: Node, s: Node)
    requires Merged(t, s).Some? && NoNulls(s)
    ensures Merged(Merged(t, s).value, s) == Merged(t, s)
    decreases s, 1
  {
    if s.Map? && s.entries != map[] {
      MergeMapAgain(t, s);
    } else if s.Sequence? && s.items != [] {
      MergeSequenceAgain(t, s);
    }
  }

  lemma {:induction false} MergeMapAgain(t: Node, s: Node)
    requires Merged(t, s).Some? && NoNulls(s) && s.Map? && s.entries != map[]
    ensures Merged(Merged(t, s).value, s) == Merged(t, s)
    decreases s, 0
  {
    var m := Merged(t, s).value;
    MergedMap(t, s);
    forall k | k in s.entries
      ensures Merged(Slot(m, k), s.entries[k]) == Some(Slot(m, k))
    {
      MergeIdempotent(Slot(t, k), s.entries[k]);
    }
    assert Merged(m, s).Some?;
    MergedMap(m, s);
    SameSlots(m, Merged(m, s).value, m);
  }

  lemma {:induction false} MergeSequenceAgain(t: Node, s: Node)
    requires Merged(t, s).Some? && NoNulls(s) && s.Sequence? && s.items != []
    ensures Merged(Merged(t, s).value, s) == Merged(t, s)
    decreases s, 0
  {
    var m := Merged(t, s).value;
    MergedItemsAt(Items(t), s.items, 0);
    forall i | 0 <= i < |m.items| && i < |s.items|
      ensures Merged(m.items[i], s.items[i]) == Some(m.items[i])
    {
      MergedItemsAt(Items(t), s.items, i);
      if i < |Items(t)| {
        MergeIdempotent(Items(t)[i], s.items[i]);
      } else {
        MergeSelf(s.items[i]);
      }
    }
    ItemsMerge(m.items, s.items);
    var again := MergedItems(m.items, s.items).value;
    MergedItemsAt(m.items, s.items, 0);
    forall i | 0 <= i < |m.items|
      ensures again[i] == m.items[i]
    {
      MergedItemsAt(m.items, s.items, i);
    }
    assert again == m.items;
  }

  // ---------------------------------------------------------------------
  // By-class overrides
  // ---------------------------------------------------------------------

  /** The overrides of each class, by the class name with a leading colon. */
  type Scope = map<string, Node>

  predicate IsClassKey(key: string) {
    key != "" && key[0] == ':'
  }

  function ClassKeys(node: Node): set<string> {
    set k | k in Keys(node) && IsClassKey(k)
  }

  /** The keys of a document's class overrides are those of a map that start with a colon. */
  lemma ClassKeysStart(node: Node, k: string)
    ensures k in ClassKeys(node) <==> node.Map? && k in node.entries && ":" <= k
    ensures k in ClassKeys(node) <==> node.Map? && k in node.entries && exists name: string :: k == ":" + name
  {
    if k != "" && k[0] == ':' {
      assert k == ":" + k[1..];
    }
  }

  /** `merge` of by-class overrides: new classes are inserted as they are. */
  function MergedScope(scope: Scope, node: Node): (r: Option<Scope>)
    ensures r.Some? ==> r.value.Keys == scope.Keys + ClassKeys(node)
  {
    if forall k | k in ClassKeys(node) && k in scope :: Merged(scope[k], Entry(node, k)).Some? then
      Some(map k | k in scope.Keys + ClassKeys(node) :: MergedClass(scope, node, k))
    else None
  }

  function MergedClass(scope: Scope, node: Node, k: string): Node
    requires k in scope || k in ClassKeys(node)
    requires k in scope && k in ClassKeys(node) ==> Merged(scope[k], Entry(node, k)).Some?
  {
    if k !in ClassKeys(node) then scope[k]
    else if k !in scope then Entry(node, k)
    else Merged(scope[k], Entry(node, k)).value
  }

  /** `m` is the scope with the classes `done` of the document merged into it. */
  ghost predicate ScopeSoFar(scope: Scope, node: Node, done: set<string>, m: Scope) {
    && done <= ClassKeys(node)
    && m.Keys == scope.Keys + done
    && (forall k | k in done && k in scope :: Merged(scope[k], Entry(node, k)) == Some(m[k]))
    && (forall k | k in done && k !in scope :: m[k] == Entry(node, k))
    && (forall k | k in scope && k !in done :: m[k] == scope[k])
  }

  predicate Mergeable(m: Scope, node: Node, k: string) {
    k in m ==> Merged(m[k], Entry(node, k)).Some?
  }

  function WithClass(m: Scope, node: Node, k: string): Scope
    requires Mergeable(m, node, k)
  {
    m[k := if k in m then Merged(m[k], Entry(node, k)).value else Entry(node, k)]
  }

  lemma MergeOneClass(scope: Scope, node: Node, done: set<string>, m: Scope, k: string)
    requires ScopeSoFar(scope, node, done, m) && k in ClassKeys(node) && k !in done
    ensures if Mergeable(m, node, k) then ScopeSoFar(scope, node, done + {k}, WithClass(m, node, k))
            else MergedScope(scope, node).None?
  {
  }

  lemma MergedAllClasses(scope: Scope, node: Node, m: Scope)
    requires ScopeSoFar(scope, node, ClassKeys(node), m)
    ensures MergedScope(scope, node) == Some(m)
  {
    assert MergedScope(scope, node).Some?;
    var r := MergedScope(scope, node).value;
    forall k | k in m
      ensures r[k] == m[k]
    {
      assert r[k] == MergedClass(scope, node, k);
    }
    assert r == m;
  }

  /**
   * A leaf of a class override comes from the innermost document that has it;
   * classes the document does not name are untouched.
   */
  lemma ScopeRightBiased(scope: Scope, node: Node, k: string, path: seq<Step>)
    requires MergedScope(scope, node).Some?
    requires k in scope || k in ClassKeys(node)
    ensures var merged := MergedScope(scope, node).value;
            && k in merged
            && Probe(merged[k], path)
               == (if k !in ClassKeys(node) then Probe(scope[k], path)
                   else if k !in scope then Probe(Entry(node, k), path)
                   else Override(Probe(scope[k], path), Probe(Entry(node, k), path)))
  {
    if k in scope && k in ClassKeys(node) {
      MergeRightBiased(scope[k], Entry(node, k), path);
    }
  }

  lemma NoClassKeys(scope: Scope, node: Node)
    requires ClassKeys(node) == {}
    ensures MergedScope(scope, node) == Some(scope)
  {
    assert MergedScope(scope, node).Some?;
    var merged := MergedScope(scope, node).value;
    assert merged.Keys == scope.Keys;
    assert forall k | k in scope :: merged[k] == MergedClass(scope, node, k);
    assert merged == scope;
  }
}
