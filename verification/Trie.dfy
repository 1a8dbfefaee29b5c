/** The subscription trie (trie/trie.go): ids under byte patterns with wildcard positions, looked up by
    key. `Live` says which patterns are in a trie without walking a key; the class keeps the set of
    live patterns beside the nodes. */
module Tries {
  import opened Wrappers

  type Byte = x: int | 0 <= x < 256

  /** A byte, or None where any byte will do. */
  type Pattern = seq<Option<Byte>>

  datatype Node = Node(children: map<Byte, Node>, ignore: Option<Node>, ids: seq<nat>)

  const EMPTY := Node(map[], None, [])

  predicate IsEmpty(n: Node) {
    n.children == map[] && n.ids == [] && n.ignore.None?
  }

  /** The pattern of a prefix whose positions marked in `ignore` are holes; marks beyond either end
      do not matter. */
  function PatternOf(prefix: seq<Byte>, ignore: seq<bool>): (p: Pattern)
    ensures |p| == |prefix|
    ensures forall i :: 0 <= i < |prefix| ==> p[i] == if i < |ignore| && ignore[i] then None else Some(prefix[i])
  {
    seq(|prefix|, i requires 0 <= i < |prefix| => if i < |ignore| && ignore[i] then None else Some(prefix[i]))
  }

  /** The pattern matches a prefix of the key. */
  predicate Matches(p: Pattern, key: seq<Byte>) {
    |p| <= |key| && forall i :: 0 <= i < |p| ==> p[i].None? || p[i].value == key[i]
  }

  /** `id` is in the trie under `p`. */
  predicate Live(n: Node, p: Pattern, id: nat)
    decreases |p|
  {
    if p == [] then id in n.ids
    else if p[0].None? then n.ignore.Some? && Live(n.ignore.value, p[1..], id)
    else p[0].value in n.children && Live(n.children[p[0].value], p[1..], id)
  }

  // ---------------------------------------------------------------- fix

  /** Adding: missing nodes on the way are made. */
  function Add(n: Node, p: Pattern, id: nat): Node
    decreases |p|
  {
    if p == [] then n.(ids := n.ids + [id])
    else if p[0].None? then
      n.(ignore := Some(Add(if n.ignore.None? then EMPTY else n.ignore.value, p[1..], id)))
    else
      var b := p[0].value;
      n.(children := n.children[b := Add(if b in n.children then n.children[b] else EMPTY, p[1..], id)])
  }

  function Without(ids: seq<nat>, id: nat): seq<nat> {
    if ids == [] then []
    else Without(ids[..|ids| - 1], id) + if ids[|ids| - 1] != id then [ids[|ids| - 1]] else []
  }

  lemma {:induction false} WithoutMembers(ids: seq<nat>, id: nat, j: nat)
    ensures j in Without(ids, id) <==> j in ids && j != id
  {
    if ids != [] { WithoutMembers(ids[..|ids| - 1], id, j); }
  }

  /** Deleting: all copies of the id go; nothing happens if a node on the way is missing. */
  function Remove(n: Node, p: Pattern, id: nat): Node
    decreases |p|
  {
    if p == [] then n.(ids := Without(n.ids, id))
    else if p[0].None? then
      if n.ignore.None? then n else n.(ignore := Some(Remove(n.ignore.value, p[1..], id)))
    else
      var b := p[0].value;
      if b !in n.children then n else n.(children := n.children[b := Remove(n.children[b], p[1..], id)])
  }

  lemma {:induction false} AddLive(n: Node, p: Pattern, id: nat, q: Pattern, j: nat)
    ensures Live(Add(n, p, id), q, j) <==> Live(n, q, j) || (q == p && j == id)
    decreases |p|
  {
    if p != [] && q != [] && p[0] == q[0] {
      var child := if p[0].None? then n.ignore else if p[0].value in n.children then Some(n.children[p[0].value]) else None;
      AddLive(if child.None? then EMPTY else child.value, p[1..], id, q[1..], j);
      EmptyLive(q[1..], j);
      assert p == [p[0]] + p[1..] && q == [q[0]] + q[1..];
    }
  }

  lemma EmptyLive(q: Pattern, j: nat)
    ensures !Live(EMPTY, q, j)
  {
  }

  lemma {:induction false} RemoveLive(n: Node, p: Pattern, id: nat, q: Pattern, j: nat)
    ensures Live(Remove(n, p, id), q, j) <==> Live(n, q, j) && !(q == p && j == id)
    decreases |p|
  {
    if p == [] {
      WithoutMembers(n.ids, id, j);
    } else if q != [] && p[0] == q[0] {
      assert p == [p[0]] + p[1..] && q == [q[0]] + q[1..];
      if p[0].None? {
        if n.ignore.Some? { RemoveLive(n.ignore.value, p[1..], id, q[1..], j); }
      } else if p[0].value in n.children {
        RemoveLive(n.children[p[0].value], p[1..], id, q[1..], j);
      }
    }
  }

  // ---------------------------------------------------------------- get

  /** The ids found along the key, through wildcards and through the bytes themselves. */
  function Get(n: Node, key: seq<Byte>): set<nat>
    decreases |key|
  {
    (set id | id in n.ids)
    + (if key == [] || n.ignore.None? then {} else Get(n.ignore.value, key[1..]))
    + (if key == [] || key[0] !in n.children then {} else Get(n.children[key[0]], key[1..]))
  }

  /** A lookup finds exactly the ids of the live patterns that match. */
  lemma {:induction false} GetIsLive(n: Node, key: seq<Byte>, id: nat)
    ensures id in Get(n, key) <==> exists p: Pattern :: Matches(p, key) && Live(n, p, id)
    decreases |key|
  {
    if id in n.ids {
      assert Matches([], key) && Live(n, [], id);
    }
    if key != [] {
      if n.ignore.Some? {
        GetIsLive(n.ignore.value, key[1..], id);
        StepDown(n, key, id, None);
      }
      if key[0] in n.children {
        GetIsLive(n.children[key[0]], key[1..], id);
        StepDown(n, key, id, Some(key[0]));
      }
    }
    if p: Pattern :| Matches(p, key) && Live(n, p, id) {
      if p != [] {
        assert forall i :: 0 <= i < |p| - 1 ==> p[1..][i] == p[i + 1];
        assert Matches(p[1..], key[1..]);
      }
    }
  }

  /** Patterns that start with `first` are those of the child, one longer. */
  lemma StepDown(n: Node, key: seq<Byte>, id: nat, first: Option<Byte>)
    requires key != [] && (first.Some? ==> first.value == key[0])
    requires if first.None? then n.ignore.Some? else first.value in n.children
    ensures var child := if first.None? then n.ignore.value else n.children[first.value];
            (exists p: Pattern :: Matches(p, key[1..]) && Live(child, p, id))
            ==> exists p: Pattern :: Matches(p, key) && Live(n, p, id)
  {
    var child := if first.None? then n.ignore.value else n.children[first.value];
    if p: Pattern :| Matches(p, key[1..]) && Live(child, p, id) {
      var q := [first] + p;
      assert q[1..] == p;
      assert forall i :: 0 < i < |q| ==> q[i] == p[i - 1] && key[i] == key[1..][i - 1];
      assert Matches(q, key) && Live(n, q, id);
    }
  }

  // ---------------------------------------------------------------- removeEmpty

  function RemoveEmpty(n: Node): Node {
    var ignore := if n.ignore.None? then None
                  else
                    var m := RemoveEmpty(n.ignore.value);
                    if IsEmpty(m) then None else Some(m);
    n.(ignore := ignore,
       children := map b | b in n.children && !IsEmpty(RemoveEmpty(n.children[b])) :: RemoveEmpty(n.children[b]))
  }

  lemma {:induction false} RemoveEmptyLive(n: Node, p: Pattern, id: nat)
    ensures Live(RemoveEmpty(n), p, id) <==> Live(n, p, id)
    decreases |p|
  {
    if p != [] {
      var m := RemoveEmpty(n);
      if p[0].None? {
        if n.ignore.Some? {
          RemoveEmptyLive(n.ignore.value, p[1..], id);
          IsEmptyLive(RemoveEmpty(n.ignore.value), p[1..], id);
        }
      } else {
        var b := p[0].value;
        if b in n.children {
          RemoveEmptyLive(n.children[b], p[1..], id);
          IsEmptyLive(RemoveEmpty(n.children[b]), p[1..], id);
        }
      }
    }
  }

  lemma IsEmptyLive(n: Node, p: Pattern, id: nat)
    ensures IsEmpty(n) ==> !Live(n, p, id)
  {
  }

  /** Removing empty nodes never changes a lookup. */
  lemma RemoveEmptyKeepsGet(n: Node, key: seq<Byte>)
    ensures Get(RemoveEmpty(n), key) == Get(n, key)
  {
    forall id ensures id in Get(RemoveEmpty(n), key) <==> id in Get(n, key) {
      GetIsLive(RemoveEmpty(n), key, id);
      GetIsLive(n, key, id);
      forall p: Pattern ensures Live(RemoveEmpty(n), p, id) <==> Live(n, p, id) {
        RemoveEmptyLive(n, p, id);
      }
    }
  }

  /** No node below is empty. */
  predicate Pruned(n: Node) {
    && (n.ignore.Some? ==> !IsEmpty(n.ignore.value) && Pruned(n.ignore.value))
    && forall b :: b in n.children ==> !IsEmpty(n.children[b]) && Pruned(n.children[b])
  }

  lemma {:induction false} RemoveEmptyPrunes(n: Node)
    ensures Pruned(RemoveEmpty(n))
    decreases n
  {
    if n.ignore.Some? { RemoveEmptyPrunes(n.ignore.value); }
    forall b | b in n.children ensures Pruned(RemoveEmpty(n.children[b])) {
      RemoveEmptyPrunes(n.children[b]);
    }
  }

  lemma {:induction false} AddPruned(n: Node, p: Pattern, id: nat)
    requires Pruned(n)
    ensures Pruned(Add(n, p, id)) && !IsEmpty(Add(n, p, id))
    decreases |p|
  {
    if p != [] {
      if p[0].None? {
        AddPruned(if n.ignore.None? then EMPTY else n.ignore.value, p[1..], id);
      } else {
        var b := p[0].value;
        AddPruned(if b in n.children then n.children[b] else EMPTY, p[1..], id);
        assert b in Add(n, p, id).children;
      }
    }
  }

  // ---------------------------------------------------------------- any run of additions and deletions

  class Trie {
    var root: Node
    ghost var live: set<(Pattern, nat)>

    /** The nodes hold just the live patterns, and none is empty but the root. */
    ghost predicate Valid()
      reads this
    {
      && Pruned(root)
      && forall p: Pattern, id: nat :: Live(root, p, id) <==> (p, id) in live
    }

    constructor ()
      ensures Valid() && live == {}
    {
      root, live := EMPTY, {};
    }

    method AddMatch(prefix: seq<Byte>, ignore: seq<bool>, id: nat)
      requires Valid()
      modifies this
      ensures Valid() && live == old(live) + {(PatternOf(prefix, ignore), id)}
    {
      var p := PatternOf(prefix, ignore);
      AddPruned(root, p, id);
      forall q: Pattern, j: nat ensures Live(Add(root, p, id), q, j) <==> (q, j) in live + {(p, id)} {
        AddLive(root, p, id, q, j);
      }
      root, live := Add(root, p, id), live + {(p, id)};
    }

    method DeleteMatch(prefix: seq<Byte>, ignore: seq<bool>, id: nat)
      requires Valid()
      modifies this
      ensures Valid() && live == old(live) - {(PatternOf(prefix, ignore), id)}
    {
      var p := PatternOf(prefix, ignore);
      var n := Remove(root, p, id);
      RemoveEmptyPrunes(n);
      forall q: Pattern, j: nat ensures Live(RemoveEmpty(n), q, j) <==> (q, j) in live - {(p, id)} {
        RemoveLive(root, p, id, q, j);
        RemoveEmptyLive(n, q, j);
      }
      root, live := RemoveEmpty(n), live - {(p, id)};
    }

    method Lookup(key: seq<Byte>) returns (ids: set<nat>)
      requires Valid()
      ensures forall id: nat :: id in ids <==> exists p: Pattern :: Matches(p, key) && (p, id) in live
    {
      ids := Get(root, key);
      forall id: nat ensures id in ids <==> exists p: Pattern :: Matches(p, key) && (p, id) in live {
        GetIsLive(root, key, id);
      }
    }
  }
}
