/** The memtable's skiplist (skl/skl.go): nodes in an arena, linked by offsets at up to 20 levels.

    A node is known by its offset, here its index in `nodes`: 0 is nil and 1 the head. The ghost
    `lists` has the nodes linked at each level. `Valid` holds after every single link step of `Put`,
    so a reader that runs between two steps finds what its contract says. */
module Skiplists {
  import opened Wrappers
  import opened Entries
  import M = MergeIterators

  const MAX_HEIGHT: nat := 20
  const NIL: nat := 0
  const HEAD: nat := 1

  datatype Node = Node(key: Key, vs: ValueStruct, tower: seq<nat>)

  predicate IsNode(nodes: seq<Node>, x: nat, l: nat) {
    HEAD <= x < |nodes| && l < |nodes[x].tower|
  }

  function Link(nodes: seq<Node>, x: nat, l: nat): nat
    requires IsNode(nodes, x, l)
  {
    nodes[x].tower[l]
  }

  /** The node at position `i` of a level; the head comes before the first one, nil after the last. */
  ghost function Nth(list: seq<nat>, i: int): nat {
    if i < 0 then HEAD else if i < |list| then list[i] else NIL
  }

  /** The links of level `l` lead from the head through `list` to nil. */
  ghost predicate Chain(nodes: seq<Node>, list: seq<nat>, l: nat) {
    && IsNode(nodes, HEAD, l)
    && (forall i :: 0 <= i < |list| ==> HEAD < list[i] && IsNode(nodes, list[i], l))
    && forall i :: -1 <= i < |list| ==> Link(nodes, Nth(list, i), l) == Nth(list, i + 1)
  }

  ghost predicate InOrder(nodes: seq<Node>, list: seq<nat>) {
    && (forall i :: 0 <= i < |list| ==> list[i] < |nodes|)
    && forall i, j :: 0 <= i < j < |list| ==> Less(nodes[list[i]].key, nodes[list[j]].key)
  }

  ghost predicate SubList(upper: seq<nat>, lower: seq<nat>) {
    forall x :: x in upper ==> x in lower
  }

  ghost predicate Levels(nodes: seq<Node>, lists: seq<seq<nat>>, height: nat) {
    && |lists| == MAX_HEIGHT && 1 <= height <= MAX_HEIGHT
    && (forall l :: 0 <= l < MAX_HEIGHT ==> Chain(nodes, lists[l], l) && InOrder(nodes, lists[l]))
    && (forall l :: 0 < l < MAX_HEIGHT ==> SubList(lists[l], lists[l - 1]))
    && forall l :: height <= l < MAX_HEIGHT ==> lists[l] == []
  }

  /** What the base level holds, in key order. */
  ghost function Contents(nodes: seq<Node>, list: seq<nat>): (es: seq<Entry>)
    requires forall i :: 0 <= i < |list| ==> list[i] < |nodes|
    ensures |es| == |list| && forall i :: 0 <= i < |list| ==> es[i] == Entry(nodes[list[i]].key, nodes[list[i]].vs)
  {
    seq(|list|, i requires 0 <= i < |list| => Entry(nodes[list[i]].key, nodes[list[i]].vs))
  }

  /** The node findNear is to return, by the position of the first key at or above `key`. */
  ghost function Near(nodes: seq<Node>, base: seq<nat>, key: Key, less: bool, allowEqual: bool): (nat, bool)
    requires InOrder(nodes, base)
  {
    var a := SeekIndex(Contents(nodes, base), key);
    var found := a < |base| && nodes[base[a]].key == key;
    if found && allowEqual then (base[a], true)
    else if less then (if a == 0 then NIL else base[a - 1], false)
    else (Nth(base, if found then a + 1 else a), false)
  }

  lemma AtSeek(nodes: seq<Node>, base: seq<nat>, key: Key, a: nat)
    requires InOrder(nodes, base) && a <= |base|
    requires a > 0 ==> Less(nodes[base[a - 1]].key, key)
    requires a < |base| ==> LessEq(key, nodes[base[a]].key)
    ensures SeekIndex(Contents(nodes, base), key) == a
  {
  }

  /** A node with the key, found at any level, is the one of the base level. */
  lemma SeekFinds(nodes: seq<Node>, base: seq<nat>, x: nat)
    requires InOrder(nodes, base) && x in base
    ensures x < |nodes|
    ensures var a := SeekIndex(Contents(nodes, base), nodes[x].key); a < |base| && base[a] == x
  {
  }

  lemma InBase(nodes: seq<Node>, lists: seq<seq<nat>>, height: nat, l: nat, x: nat)
    requires Levels(nodes, lists, height) && l < MAX_HEIGHT && x in lists[l]
    ensures x in lists[0]
  {
    if l > 0 {
      assert SubList(lists[l], lists[l - 1]);
      InBase(nodes, lists, height, l - 1, x);
    }
  }

  class Skiplist {
    var height: nat
    var nodes: seq<Node>
    ghost var lists: seq<seq<nat>>

    ghost predicate Valid()
      reads this
    {
      Levels(nodes, lists, height)
    }

    ghost function Entries(): seq<Entry>
      requires Valid()
      reads this
    {
      Contents(nodes, lists[0])
    }

    constructor ()
      ensures Valid() && Entries() == []
    {
      var none := Node(Key(0, 0), ValueStruct(Meta(false, false, false, false), 0, []), []);
      nodes := [none, none.(tower := seq(MAX_HEIGHT, _ => NIL))];
      height := 1;
      lists := seq(MAX_HEIGHT, _ => []);
    }

    function Next(x: nat, level: nat): nat
      requires IsNode(nodes, x, level)
      reads this
    {
      Link(nodes, x, level)
    }

    /** The position of `x` one level down. */
    lemma Down(level: nat, p: int) returns (q: int)
      requires Valid() && 0 < level < MAX_HEIGHT && -1 <= p < |lists[level]|
      ensures -1 <= q < |lists[level - 1]| && Nth(lists[level - 1], q) == Nth(lists[level], p) && (p >= 0 ==> q >= 0)
    {
      q := -1;
      if p >= 0 {
        assert SubList(lists[level], lists[level - 1]);
        assert lists[level][p] in lists[level - 1];
        q :| 0 <= q < |lists[level - 1]| && lists[level - 1][q] == lists[level][p];
      }
    }

    /** After a node of the base level comes the node at the next position. */
    lemma NextInBase(x: nat)
      requires Valid() && x in lists[0]
      ensures IsNode(nodes, x, 0)
      ensures var a := SeekIndex(Contents(nodes, lists[0]), nodes[x].key); Link(nodes, x, 0) == Nth(lists[0], a + 1)
    {
      SeekFinds(nodes, lists[0], x);
      var a := SeekIndex(Contents(nodes, lists[0]), nodes[x].key);
      assert Chain(nodes, lists[0], 0) && Nth(lists[0], a) == x;
    }

    method Ahead(x: nat, level: nat, ghost p: int) returns (next: nat)
      requires Valid() && level < MAX_HEIGHT && -1 <= p < |lists[level]| && x == Nth(lists[level], p)
      ensures next == Nth(lists[level], p + 1)
      ensures next != NIL <==> p + 1 < |lists[level]|
      ensures next != NIL ==> HEAD < next < |nodes| && next in lists[level] && next != x
    {
      assert Chain(nodes, lists[level], level) && InOrder(nodes, lists[level]);
      next := Next(x, level);
    }

    /** At the base level: `x` is before the key and `next` is not. */
    lemma NearAtBase(key: Key, p: int, less: bool, allowEqual: bool)
      requires Valid() && -1 <= p < |lists[0]| && InOrder(nodes, lists[0])
      requires p >= 0 ==> Less(nodes[lists[0][p]].key, key)
      requires p + 1 < |lists[0]| ==> LessEq(key, nodes[lists[0][p + 1]].key)
      ensures var equal := p + 1 < |lists[0]| && nodes[lists[0][p + 1]].key == key;
              Near(nodes, lists[0], key, less, allowEqual) ==
                if equal && allowEqual then (lists[0][p + 1], true)
                else if less then (if p < 0 then NIL else lists[0][p], false)
                else (Nth(lists[0], if equal then p + 2 else p + 1), false)
    {
      AtSeek(nodes, lists[0], key, p + 1);
    }

    /** The key itself has been found, at any level. */
    lemma NearFound(level: nat, x: nat, less: bool, allowEqual: bool)
      requires Valid() && level < MAX_HEIGHT && x in lists[level]
      ensures InOrder(nodes, lists[0]) && IsNode(nodes, x, 0)
      ensures allowEqual ==> Near(nodes, lists[0], nodes[x].key, less, allowEqual) == (x, true)
      ensures !allowEqual && !less ==> Near(nodes, lists[0], nodes[x].key, less, allowEqual) == (Link(nodes, x, 0), false)
    {
      InBase(nodes, lists, height, level, x);
      SeekFinds(nodes, lists[0], x);
      NextInBase(x);
    }

    /** The nearest node on the side asked for, and whether it has the very key. */
    method FindNear(key: Key, less: bool, allowEqual: bool) returns (n: nat, equal: bool)
      requires Valid()
      ensures InOrder(nodes, lists[0]) && (n, equal) == Near(nodes, lists[0], key, less, allowEqual)
    {
      assert InOrder(nodes, lists[0]) && height <= MAX_HEIGHT == |lists|;
      hide Levels, Near;
      var x, level := HEAD, height - 1;
      ghost var p := -1;
      while true
        invariant 0 <= level < height && -1 <= p < |lists[level]| && x == Nth(lists[level], p)
        invariant x < |nodes| && (p >= 0 ==> HEAD < x && Less(nodes[x].key, key))
        decreases level, |lists[level]| - p
      {
        var next := Ahead(x, level, p);
        if next != NIL && Less(nodes[next].key, key) {
          x, p := next, p + 1;
          continue;
        }
        if next != NIL && nodes[next].key == key {
          NearFound(level, next, less, allowEqual);
          if allowEqual {
            return next, true;
          }
          if !less {
            return Next(next, 0), false;
          }
        }
        if level > 0 {
          p := Down(level, p);
          level := level - 1;
          continue;
        }
        NearAtBase(key, p, less, allowEqual);
        if !less {
          return next, false;
        }
        return if x == HEAD then NIL else x, false;
      }
    }

    method Get(key: Key) returns (r: Option<Entry>)
      requires Valid()
      ensures r == Best(Entries(), key.user, key.ts)
    {
      var n, _ := FindNear(key, false, true);
      ContentsSorted(nodes, lists[0]);
      SeekIsBest(Entries(), key);
      if n == NIL {
        return None;
      }
      if nodes[n].key.user != key.user {
        return None;
      }
      return Some(Entry(nodes[n].key, nodes[n].vs));
    }

    method FindLast() returns (n: nat)
      requires Valid()
      ensures n == if lists[0] == [] then NIL else lists[0][|lists[0]| - 1]
    {
      assert height <= MAX_HEIGHT == |lists|;
      hide Levels;
      var level := height - 1;
      n := HEAD;
      ghost var p := -1;
      while true
        invariant 0 <= level < height && -1 <= p < |lists[level]| && n == Nth(lists[level], p) && (p >= 0 ==> n != HEAD)
        decreases level, |lists[level]| - p
      {
        var next := Ahead(n, level, p);
        if next != NIL {
          n, p := next, p + 1;
          continue;
        }
        if level == 0 {
          return if n == HEAD then NIL else n;
        }
        p := Down(level, p);
        level := level - 1;
      }
    }

    /** Where `key` belongs at `level`: between two nodes, or at the node that has it. */
    method FindSpliceForLevel(key: Key, before: nat, level: nat) returns (b: nat, a: nat)
      requires Valid() && level < MAX_HEIGHT && Precedes(nodes, lists[level], before, key)
      ensures b == a ==> b in lists[level] && b < |nodes| && nodes[b].key == key
      ensures b != a ==> Splice(nodes, lists[level], key, b, a)
    {
      assert |lists| == MAX_HEIGHT;
      hide Levels;
      b := before;
      ghost var p := if before == HEAD then -1 else var q :| 0 <= q < |lists[level]| && lists[level][q] == before; q;
      while true
        invariant -1 <= p < |lists[level]| && b == Nth(lists[level], p) && Precedes(nodes, lists[level], b, key)
        decreases |lists[level]| - p
      {
        var next := Ahead(b, level, p);
        if next == NIL {
          assert SpliceAt(nodes, lists[level], key, b, NIL, p);
          return b, next;
        }
        if key == nodes[next].key {
          return next, next;
        }
        if Less(key, nodes[next].key) {
          assert SpliceAt(nodes, lists[level], key, b, next, p);
          return b, next;
        }
        b, p := next, p + 1;
      }
    }

    // ------------------------------------------------------------ Put, step by step

    /** A new node: it exists, but nothing leads to it yet. */
    method NewNode(key: Key, vs: ValueStruct, h: nat) returns (x: nat)
      requires Valid() && 1 <= h <= MAX_HEIGHT
      modifies `nodes
      ensures Valid() && Entries() == old(Entries()) && nodes == old(nodes) + [Node(key, vs, seq(h, _ => NIL))]
      ensures x == old(|nodes|) && forall l :: 0 <= l < MAX_HEIGHT ==> x !in lists[l]
    {
      x := |nodes|;
      nodes := nodes + [Node(key, vs, seq(h, _ => NIL))];
      SameLevels(old(nodes), nodes, lists, height);
    }

    /** Overwrites the value of a key that is there. */
    method SetValue(n: nat, vs: ValueStruct)
      requires Valid() && n in lists[0] && n < |nodes|
      modifies `nodes
      ensures Valid() && Entries() == Inserted(old(Entries()), Entry(old(nodes)[n].key, vs))
    {
      SeekFinds(nodes, lists[0], n);
      nodes := nodes[n := nodes[n].(vs := vs)];
      SameLevels(old(nodes), nodes, lists, height);
    }

    /** x.tower[i].Store(next), before anything leads to `x` at level `i`. */
    method StoreNext(x: nat, i: nat, next: nat)
      requires Valid() && i < MAX_HEIGHT && HEAD < x && IsNode(nodes, x, i) && x !in lists[i]
      modifies `nodes
      ensures Valid() && Entries() == old(Entries())
      ensures nodes == old(nodes)[x := old(nodes)[x].(tower := old(nodes)[x].tower[i := next])]
    {
      nodes := nodes[x := nodes[x].(tower := nodes[x].tower[i := next])];
      assert SameExcept(old(nodes), nodes, x, i);
      StoreLevels(old(nodes), nodes, lists, height, x, i);
    }

    /** casNextOffset: links `x` after `b` if `a` still follows there. What is asked of `b` and `a`
        cannot be undone by other inserts, so it may have been found out long before. */
    method CasNext(b: nat, i: nat, a: nat, x: nat) returns (ok: bool)
      requires Valid() && i < height && HEAD < x && IsNode(nodes, x, i) && Link(nodes, x, i) == a
      requires x !in lists[i] && (i > 0 ==> x in lists[i - 1])
      requires Precedes(nodes, lists[i], b, nodes[x].key)
      requires a != NIL ==> a < |nodes| && Less(nodes[x].key, nodes[a].key)
      modifies `nodes, `lists
      ensures Valid() && (!ok ==> nodes == old(nodes) && lists == old(lists))
      ensures ok <==> IsNode(old(nodes), b, i) && old(Link(nodes, b, i)) == a
      ensures ok ==> SameExcept(old(nodes), nodes, b, i) && x in lists[i]
      ensures ok ==> forall l :: 0 <= l < MAX_HEIGHT && l != i ==> lists[l] == old(lists)[l]
      ensures ok ==> Entries() == if i == 0 then Inserted(old(Entries()), Entry(nodes[x].key, nodes[x].vs)) else old(Entries())
    {
      assert Chain(nodes, lists[i], i);
      BeforeIsNode(nodes, lists[i], i, b, nodes[x].key);
      if Next(b, i) != a {
        return false;
      }
      ghost var p := PositionOf(nodes, lists[i], b, nodes[x].key);
      ghost var more := nodes[b := nodes[b].(tower := nodes[b].tower[i := x])];
      LinkLevels(nodes, more, lists, height, b, a, x, i, p);
      if i == 0 { LinkContents(nodes, more, lists[0], x, p); } else { SameContents(nodes, more, lists[0]); }
      hide Levels, Chain, InOrder, Spliced, Fits, Inserted;
      nodes := nodes[b := nodes[b].(tower := nodes[b].tower[i := x])];
      lists := lists[i := Spliced(lists[i], x, p)];
      ok := true;
    }

    /** One turn of Put's second loop. With the place found still right, the link succeeds. */
    method LinkLevel(x: nat, i: nat, b: nat, a: nat)
      requires Valid() && i < height && HEAD < x && IsNode(nodes, x, i)
      requires x !in lists[i] && (i > 0 ==> x in lists[i - 1]) && Splice(nodes, lists[i], nodes[x].key, b, a)
      modifies `nodes, `lists
      ensures Valid() && SameKeys(old(nodes), nodes) && x in lists[i]
      ensures forall l :: 0 <= l < MAX_HEIGHT && l != i ==> lists[l] == old(lists)[l]
      ensures Entries() == if i == 0 then Inserted(old(Entries()), Entry(nodes[x].key, nodes[x].vs)) else old(Entries())
    {
      SpliceLink(nodes, lists, height, i, nodes[x].key, b, a, x);
      hide Levels, Inserted, Splice;
      StoreNext(x, i, a);
      var ok := CasNext(b, i, a, x);
    }

    /** Put's first loop, from the top level down, each level starting where the one above ended. */
    method FindPlaces(key: Key) returns (found: nat, prev: seq<nat>, next: seq<nat>)
      requires Valid()
      ensures found != NIL ==> found in lists[0] && found < |nodes| && nodes[found].key == key
      ensures |prev| == |next| == MAX_HEIGHT + 1 == |lists| + 1
      ensures found == NIL ==> prev[0] != NIL && prev[1] != NIL
      ensures found == NIL ==> forall l :: 0 <= l < MAX_HEIGHT ==> Place(nodes, lists[l], key, prev[l], next[l])
    {
      prev := seq(MAX_HEIGHT + 1, _ => NIL)[height := HEAD];
      next := seq(MAX_HEIGHT + 1, _ => NIL);
      found := NIL;
      SpliceEmpty(nodes, key);
      var i := height;
      while i > 0
        invariant 0 <= i <= height && |prev| == |next| == MAX_HEIGHT + 1 && prev[height] == HEAD
        invariant forall l :: i <= l < height ==> Splice(nodes, lists[l], key, prev[l], next[l])
        invariant forall l :: height <= l < MAX_HEIGHT ==> Place(nodes, lists[l], key, prev[l], next[l])
      {
        i := i - 1;
        SpliceBelow(nodes, lists, height, i, key, prev[i + 1], next[i + 1]);
        var b, a := FindSpliceForLevel(key, prev[i + 1], i);
        prev, next := prev[i := b], next[i := a];
        if prev[i] == next[i] {
          InBase(nodes, lists, height, i, b);
          found := b;
          return;
        }
      }
      assert forall l :: 0 <= l < height ==> Place(nodes, lists[l], key, prev[l], next[l]);
    }

    /** Inserts or overwrites: a map update. `h` is what randomHeight returns. */
    method Put(key: Key, vs: ValueStruct, h: nat)
      requires Valid() && 1 <= h <= MAX_HEIGHT
      modifies this
      ensures Valid() && Entries() == Inserted(old(Entries()), Entry(key, vs))
    {
      var found, prev, next := FindPlaces(key);
      if found != NIL {
        SetValue(found, vs);
        return;
      }
      var x := NewNode(key, vs, h);
      forall l | 0 <= l < MAX_HEIGHT ensures Place(nodes, lists[l], key, prev[l], next[l]) {
        SpliceSame(old(nodes), nodes, lists[l], key, prev[l], next[l]);
      }
      if h > height {
        height := h;
      }
      LinkAll(x, h, prev, next);
    }

    /** The place found before, or at a level above the old height a new search from the head. */
    method PlaceAt(key: Key, i: nat, prev: nat, next: nat) returns (b: nat, a: nat)
      requires Valid() && i < MAX_HEIGHT
      requires if prev != NIL then Splice(nodes, lists[i], key, prev, next) else lists[i] == []
      ensures Splice(nodes, lists[i], key, b, a)
    {
      b, a := prev, next;
      if b == NIL {
        b, a := FindSpliceForLevel(key, HEAD, i);
      }
    }

    /** Levels below `i` of the `h` levels of node `x` are linked; nothing else has changed since the
        level lists were `lists0`. */
    ghost predicate Linking(x: nat, i: nat, h: nat, e: Entry, nodes0: seq<Node>, lists0: seq<seq<nat>>, es0: seq<Entry>)
      reads this
    {
      && Valid() && i <= h <= height && SameKeys(nodes0, nodes) && |lists| == |lists0| == MAX_HEIGHT
      && HEAD < x < |nodes| && nodes[x].key == e.key && nodes[x].vs == e.vs && |nodes[x].tower| == h
      && (forall l :: i <= l < MAX_HEIGHT ==> lists[l] == lists0[l]) && (i > 0 ==> x in lists[i - 1])
      && Entries() == if i == 0 then es0 else Inserted(es0, e)
    }

    method LinkTurn(x: nat, i: nat, h: nat, prev: nat, next: nat,
                    ghost e: Entry, ghost nodes0: seq<Node>, ghost lists0: seq<seq<nat>>, ghost es0: seq<Entry>)
      requires Linking(x, i, h, e, nodes0, lists0, es0) && i < h && i < |lists0| && x !in lists0[i]
      requires Place(nodes0, lists0[i], e.key, prev, next)
      modifies `nodes, `lists
      ensures Linking(x, i + 1, h, e, nodes0, lists0, es0)
    {
      hide Inserted, Splice, SameKeys, Contents, Levels;
      assert height <= MAX_HEIGHT by { HeightIs(nodes, lists, height); }
      SpliceSame(nodes0, nodes, lists[i], nodes[x].key, prev, next);
      var b, a := PlaceAt(nodes[x].key, i, prev, next);
      LinkLevel(x, i, b, a);
      HeightIs(nodes, lists, height);
      SameKeysTrans(old(nodes), old(nodes), nodes, x);
      SameKeysTrans(nodes0, old(nodes), nodes, x);
    }

    /** Put's second loop: from the base level up. */
    method LinkAll(x: nat, h: nat, prev: seq<nat>, next: seq<nat>)
      requires Valid() && 1 <= h <= height && HEAD < x < |nodes| && |nodes[x].tower| == h
      requires |prev| == |next| == MAX_HEIGHT + 1 == |lists| + 1 && prev[0] != NIL && prev[1] != NIL
      requires forall l :: 0 <= l < MAX_HEIGHT ==> x !in lists[l]
      requires forall l :: 0 <= l < MAX_HEIGHT ==> Place(nodes, lists[l], nodes[x].key, prev[l], next[l])
      modifies `nodes, `lists
      ensures Valid() && Entries() == Inserted(old(Entries()), Entry(old(nodes)[x].key, old(nodes)[x].vs))
    {
      ghost var nodes0, lists0, es0, e := nodes, lists, Entries(), Entry(nodes[x].key, nodes[x].vs);
      HeightIs(nodes, lists, height);
      LinkingStarts(x, h, e);
      hide Linking, Levels, Place;
      var i := 0;
      while i < h
        invariant i <= h && Linking(x, i, h, e, nodes0, lists0, es0)
      {
        assert prev[i] == NIL ==> i > 1;
        LinkTurn(x, i, h, prev[i], next[i], e, nodes0, lists0, es0);
        i := i + 1;
      }
      LinkingEnds(x, h, e, nodes0, lists0, es0);
    }

    lemma LinkingStarts(x: nat, h: nat, e: Entry)
      requires Valid() && h <= height && HEAD < x < |nodes| && |nodes[x].tower| == h && e == Entry(nodes[x].key, nodes[x].vs)
      ensures Linking(x, 0, h, e, nodes, lists, Entries())
    {
    }

    lemma LinkingEnds(x: nat, h: nat, e: Entry, nodes0: seq<Node>, lists0: seq<seq<nat>>, es0: seq<Entry>)
      requires Linking(x, h, h, e, nodes0, lists0, es0) && h > 0
      ensures Valid() && Entries() == Inserted(es0, e)
    {
    }
  }

  /** Where `key` goes at a level: a place found, or nil if the level was empty and not searched. */
  ghost predicate Place(nodes: seq<Node>, list: seq<nat>, key: Key, b: nat, a: nat) {
    if b != NIL then Splice(nodes, list, key, b, a) else list == []
  }

  lemma ContentsSorted(nodes: seq<Node>, base: seq<nat>)
    requires InOrder(nodes, base)
    ensures Sorted(Contents(nodes, base))
  {
  }

  /** `x` is the head, or a node of the level with a smaller key. */
  ghost predicate Precedes(nodes: seq<Node>, list: seq<nat>, x: nat, key: Key) {
    x == HEAD || (x in list && x < |nodes| && Less(nodes[x].key, key))
  }

  ghost predicate SpliceAt(nodes: seq<Node>, list: seq<nat>, key: Key, b: nat, a: nat, p: int) {
    && -1 <= p < |list| && b == Nth(list, p) && a == Nth(list, p + 1) && a != b
    && (p >= 0 ==> b < |nodes| && Less(nodes[b].key, key))
    && (a != NIL ==> a < |nodes| && Less(key, nodes[a].key))
  }

  /** `b` and `a` are neighbours at the level, and `key` belongs between them. */
  ghost predicate Splice(nodes: seq<Node>, list: seq<nat>, key: Key, b: nat, a: nat) {
    exists p :: SpliceAt(nodes, list, key, b, a, p)
  }

  /** What the four modes of FindNear look for. */
  predicate Qualifies(k: Key, key: Key, less: bool, allowEqual: bool) {
    (k == key && allowEqual) || (if less then Less(k, key) else Less(key, k))
  }

  lemma QualifiesAt(nodes: seq<Node>, base: seq<nat>, key: Key, less: bool, allowEqual: bool, i: nat)
    requires InOrder(nodes, base) && i < |base|
    ensures var a := SeekIndex(Contents(nodes, base), key);
            var found := a < |base| && nodes[base[a]].key == key;
            Qualifies(nodes[base[i]].key, key, less, allowEqual) <==>
              if less then i < a || (i == a && found && allowEqual) else a < i || (i == a && (!found || allowEqual))
  {
  }

  /** FindNear's result in words: the rightmost or leftmost qualifying node, nil if there is none. */
  lemma NearMeans(nodes: seq<Node>, base: seq<nat>, key: Key, less: bool, allowEqual: bool)
    requires InOrder(nodes, base) && NIL !in base
    ensures var (n, equal) := Near(nodes, base, key, less, allowEqual);
            && (n == NIL <==> forall i :: 0 <= i < |base| ==> !Qualifies(nodes[base[i]].key, key, less, allowEqual))
            && (n != NIL ==> n in base && n < |nodes| && Qualifies(nodes[n].key, key, less, allowEqual))
            && (n != NIL ==> forall i :: 0 <= i < |base| && Qualifies(nodes[base[i]].key, key, less, allowEqual) ==>
                  if less then LessEq(nodes[base[i]].key, nodes[n].key) else LessEq(nodes[n].key, nodes[base[i]].key))
            && (equal ==> n != NIL && nodes[n].key == key)
  {
    var a := SeekIndex(Contents(nodes, base), key);
    forall i | 0 <= i < |base|
      ensures Qualifies(nodes[base[i]].key, key, less, allowEqual) <==>
                if less then i < a || (i == a && nodes[base[a]].key == key && allowEqual)
                else a < i || (i == a && (nodes[base[a]].key != key || allowEqual))
    {
      QualifiesAt(nodes, base, key, less, allowEqual, i);
    }
    hide Qualifies, SeekIndex;
    var (n, equal) := Near(nodes, base, key, less, allowEqual);
    if n != NIL {
      var m := if equal then a else if less then a - 1 else if a < |base| && nodes[base[a]].key == key then a + 1 else a;
      assert 0 <= m < |base| && base[m] == n;
    }
  }

  // ---------------------------------------------------------------- iterators

  /** The memtable as an input of a merge, in either direction. */
  class UniIterator {
    const list: Skiplist
    const reversed: bool
    var n: nat
    ghost var pos: int

    constructor (list: Skiplist, reversed: bool)
      requires list.Valid()
      ensures this.list == list && this.reversed == reversed && Valid() && Rest() == []
    {
      this.list, this.reversed, n, pos := list, reversed, NIL, -1;
    }

    ghost predicate Valid()
      reads this, list
    {
      list.Valid() && -1 <= pos <= |list.lists[0]| && n == NodeAt(list.lists[0], pos)
    }

    /** What is left to yield, the current entry first. */
    ghost function Rest(): seq<Entry>
      requires Valid()
      reads this, list
    {
      RestFrom(list.Entries(), reversed, pos)
    }

    ghost function All(): seq<Entry>
      requires list.Valid()
      reads this, list
    {
      if reversed then M.Flip(list.Entries()) else list.Entries()
    }

    method Next()
      requires Valid() && n != NIL
      modifies this
      ensures Valid() && old(Rest()) != [] && Rest() == old(Rest())[1..]
    {
      hide Levels, RestFrom;
      HeightIs(list.nodes, list.lists, list.height);
      ghost var es := list.Entries();
      assert 0 <= pos < |es| == |list.lists[0]|;
      RestStep(es, pos);
      if reversed {
        Prev();
      } else {
        Forth();
      }
    }

    method Forth()
      requires Valid() && 0 <= pos < |list.lists[0]|
      modifies this
      ensures Valid() && pos == old(pos) + 1 && list.Entries() == old(list.Entries())
    {
      BaseLevel(list.nodes, list.lists, list.height);
      NextIsAt(list.nodes, list.lists[0], pos);
      hide Levels, Chain, InOrder, Near;
      n, pos := list.Next(n, 0), pos + 1;
    }

    method Prev()
      requires Valid() && 0 <= pos < |list.lists[0]|
      modifies this
      ensures Valid() && pos == old(pos) - 1 && list.Entries() == old(list.Entries())
    {
      BaseLevel(list.nodes, list.lists, list.height);
      NextIsAt(list.nodes, list.lists[0], pos);
      hide Levels, Chain, Near;
      var m, _ := list.FindNear(list.nodes[n].key, true, false);
      n, pos := m, pos - 1;
    }

    method Rewind()
      requires list.Valid()
      modifies this
      ensures Valid() && Rest() == All()
    {
      BaseLevel(list.nodes, list.lists, list.height);
      NextIsFirst(list.nodes, list.lists[0]);
      hide Levels, Chain;
      if !reversed {
        n, pos := list.Next(HEAD, 0), 0;
      } else {
        var m := list.FindLast();
        n, pos := m, |list.lists[0]| - 1;
        assert list.Entries()[..|list.lists[0]|] == list.Entries();
      }
    }

    method Seek(key: Key)
      requires list.Valid()
      modifies this
      ensures Valid() && Rest() == M.From(reversed, All(), key)
    {
      BaseLevel(list.nodes, list.lists, list.height);
      FromKey(list.nodes, list.lists[0], reversed, key);
      hide Levels, Chain, InOrder, M.From, RestFrom;
      var m, _ := list.FindNear(key, reversed, true);
      n, pos := m, SeekPosition(list.nodes, list.lists[0], reversed, key);
    }
  }

  ghost function NodeAt(base: seq<nat>, p: int): nat {
    if p < 0 then NIL else Nth(base, p)
  }

  /** Where a seek ends. */
  ghost function SeekPosition(nodes: seq<Node>, base: seq<nat>, reversed: bool, key: Key): (p: int)
    requires forall i :: 0 <= i < |base| ==> base[i] < |nodes|
    ensures -1 <= p <= |base|
  {
    var a := SeekIndex(Contents(nodes, base), key);
    if !reversed || (a < |base| && nodes[base[a]].key == key) then a else a - 1
  }

  lemma BaseLevel(nodes: seq<Node>, lists: seq<seq<nat>>, height: nat)
    requires Levels(nodes, lists, height)
    ensures |lists| == MAX_HEIGHT && Chain(nodes, lists[0], 0) && InOrder(nodes, lists[0])
  {
  }

  lemma NextIsFirst(nodes: seq<Node>, base: seq<nat>)
    requires Chain(nodes, base, 0)
    ensures IsNode(nodes, HEAD, 0) && Link(nodes, HEAD, 0) == Nth(base, 0)
  {
    assert Link(nodes, Nth(base, -1), 0) == Nth(base, 0);
  }

  /** What an iterator yields from position `p` on. */
  ghost function RestFrom(es: seq<Entry>, reversed: bool, p: int): seq<Entry>
    requires -1 <= p <= |es|
  {
    if p < 0 || p == |es| then [] else if reversed then M.Flip(es[..p + 1]) else es[p..]
  }

  lemma RestStep(es: seq<Entry>, p: int)
    requires 0 <= p < |es|
    ensures RestFrom(es, false, p) != [] && RestFrom(es, false, p)[1..] == RestFrom(es, false, p + 1)
    ensures RestFrom(es, true, p) != [] && RestFrom(es, true, p)[1..] == RestFrom(es, true, p - 1)
  {
  }

  /** A seek goes to the node FindNear returns. */
  lemma FromKey(nodes: seq<Node>, base: seq<nat>, reversed: bool, key: Key)
    requires InOrder(nodes, base)
    ensures var es, p := Contents(nodes, base), SeekPosition(nodes, base, reversed, key);
            && M.From(reversed, if reversed then M.Flip(es) else es, key) == RestFrom(es, reversed, p)
            && Near(nodes, base, key, reversed, true).0 == NodeAt(base, p)
  {
    var es := Contents(nodes, base);
    var a := SeekIndex(es, key);
    var end := if a < |base| && nodes[base[a]].key == key then a + 1 else a;
    forall k | 0 <= k < |base| ensures (Less(es[k].key, key) <==> k < a) && (Less(key, es[k].key) <==> end <= k) {
      QualifiesAt(nodes, base, key, true, false, k);
      QualifiesAt(nodes, base, key, false, false, k);
    }
    hide InOrder, SeekIndex, Contents, M.From, RestFrom;
    if reversed { FromBack(es, key, end); } else { M.FromAt(false, es, key, a); RestForth(es, a); }
  }

  lemma RestForth(es: seq<Entry>, a: nat)
    requires a <= |es|
    ensures RestFrom(es, false, a) == es[a..]
  {
  }

  lemma FromBack(es: seq<Entry>, key: Key, end: nat)
    requires end <= |es| && forall k :: 0 <= k < |es| ==> (Less(key, es[k].key) <==> end <= k)
    ensures M.From(true, M.Flip(es), key) == RestFrom(es, true, end - 1)
  {
    M.FromAt(true, M.Flip(es), key, |es| - end);
    assert M.Flip(es)[|es| - end..] == M.Flip(es[..end]);
  }

  lemma NextIsAt(nodes: seq<Node>, base: seq<nat>, p: int)
    requires InOrder(nodes, base) && Chain(nodes, base, 0) && 0 <= p < |base|
    ensures IsNode(nodes, base[p], 0) && Link(nodes, base[p], 0) == Nth(base, p + 1)
    ensures Near(nodes, base, nodes[base[p]].key, true, false) == (if p == 0 then NIL else base[p - 1], false)
  {
    assert Link(nodes, Nth(base, p), 0) == Nth(base, p + 1);
    assert p > 0 ==> Less(nodes[base[p - 1]].key, nodes[base[p]].key);
    AtSeek(nodes, base, nodes[base[p]].key, p);
  }

  // ---------------------------------------------------------------- what the steps keep

  /** A map update on the sorted contents. */
  function Inserted(es: seq<Entry>, e: Entry): seq<Entry> {
    var i := SeekIndex(es, e.key);
    if i < |es| && es[i].key == e.key then es[i := e] else es[..i] + [e] + es[i..]
  }

  lemma InsertedIsUpdate(es: seq<Entry>, e: Entry)
    requires Sorted(es)
    ensures Sorted(Inserted(es, e))
    ensures forall x :: x in Inserted(es, e) <==> x == e || (x in es && x.key != e.key)
  {
    var i := SeekIndex(es, e.key);
    SeekSplits(es, e.key);
    if i < |es| && es[i].key == e.key {
      UpdatedMembers(es, i, e);
    } else {
      InsertedMembers(es, i, e);
    }
  }

  lemma SeekSplits(es: seq<Entry>, k: Key)
    requires Sorted(es)
    ensures var i := SeekIndex(es, k);
            forall j :: 0 <= j < |es| ==> (j < i ==> Less(es[j].key, k)) && (i < j ==> Less(k, es[j].key))
  {
  }

  lemma InsertedMembers(es: seq<Entry>, i: nat, e: Entry)
    requires Sorted(es) && i <= |es|
    requires forall j :: 0 <= j < |es| ==> if j < i then Less(es[j].key, e.key) else Less(e.key, es[j].key)
    ensures Sorted(es[..i] + [e] + es[i..])
    ensures forall x :: x in es[..i] + [e] + es[i..] <==> x == e || (x in es && x.key != e.key)
  {
  }

  lemma UpdatedMembers(es: seq<Entry>, i: nat, e: Entry)
    requires Sorted(es) && i < |es| && es[i].key == e.key
    ensures Sorted(es[i := e])
    ensures forall x :: x in es[i := e] <==> x == e || (x in es && x.key != e.key)
  {
    forall x | x in es && x.key != e.key ensures x in es[i := e] {
      var j :| 0 <= j < |es| && es[j] == x;
      assert es[i := e][j] == x;
    }
    assert es[i := e][i] == e;
    forall x | x in es[i := e] ensures x == e || (x in es && x.key != e.key) {
      var j :| 0 <= j < |es| && es[i := e][j] == x;
      assert j < i ==> Less(es[j].key, es[i].key);
      assert i < j ==> Less(es[i].key, es[j].key);
    }
  }

  /** Only link `l` of node `x` differs. */
  predicate SameExcept(nodes: seq<Node>, more: seq<Node>, x: nat, l: nat) {
    && IsNode(nodes, x, l) && IsNode(more, x, l)
    && more == nodes[x := nodes[x].(tower := nodes[x].tower[l := more[x].tower[l]])]
  }

  /** Values and new nodes do not matter to the links. */
  lemma SameLevels(nodes: seq<Node>, more: seq<Node>, lists: seq<seq<nat>>, height: nat)
    requires Levels(nodes, lists, height) && |nodes| <= |more|
    requires forall x :: 0 <= x < |nodes| ==> more[x].key == nodes[x].key && more[x].tower == nodes[x].tower
    ensures Levels(more, lists, height)
  {
  }

  lemma StoreLevels(nodes: seq<Node>, more: seq<Node>, lists: seq<seq<nat>>, height: nat, x: nat, i: nat)
    requires Levels(nodes, lists, height) && i < MAX_HEIGHT && HEAD < x && x !in lists[i] && SameExcept(nodes, more, x, i)
    ensures Levels(more, lists, height)
  {
    forall l | 0 <= l < MAX_HEIGHT ensures Chain(more, lists[l], l) && InOrder(more, lists[l]) {
      OtherLink(nodes, more, lists[l], l, x, i);
    }
  }

  /** A changed link that is not part of a level leaves the level as it is. */
  lemma OtherLink(nodes: seq<Node>, more: seq<Node>, list: seq<nat>, l: nat, x: nat, i: nat)
    requires Chain(nodes, list, l) && InOrder(nodes, list) && SameExcept(nodes, more, x, i)
    requires l == i ==> HEAD < x && x !in list
    ensures Chain(more, list, l) && InOrder(more, list)
  {
  }

  lemma BeforeIsNode(nodes: seq<Node>, list: seq<nat>, l: nat, b: nat, key: Key)
    requires Chain(nodes, list, l) && Precedes(nodes, list, b, key)
    ensures IsNode(nodes, b, l)
  {
  }

  lemma PositionOf(nodes: seq<Node>, list: seq<nat>, b: nat, key: Key) returns (p: int)
    requires Precedes(nodes, list, b, key)
    ensures -1 <= p < |list| && Nth(list, p) == b && (p >= 0 ==> b < |nodes| && Less(nodes[b].key, key))
  {
    p := -1;
    if b != HEAD { p :| 0 <= p < |list| && list[p] == b; }
  }

  /** `x` in the list after position `p`. */
  ghost function Spliced(list: seq<nat>, x: nat, p: int): (r: seq<nat>)
    requires -1 <= p < |list|
    ensures |r| == |list| + 1 && r[p + 1] == x
    ensures forall i :: 0 <= i <= p ==> r[i] == list[i]
    ensures forall i :: p + 1 < i <= |list| ==> r[i] == list[i - 1]
    ensures forall y :: y in r <==> y == x || y in list
  {
    assert list == list[..p + 1] + list[p + 1..];
    list[..p + 1] + [x] + list[p + 1..]
  }

  /** One level after the link. */
  lemma LinkChain(nodes: seq<Node>, more: seq<Node>, list: seq<nat>, l: nat, b: nat, a: nat, x: nat, p: int)
    requires Chain(nodes, list, l) && InOrder(nodes, list) && SameExcept(nodes, more, b, l) && more[b].tower[l] == x
    requires HEAD < x && IsNode(nodes, x, l) && Link(nodes, x, l) == a && x !in list
    requires -1 <= p < |list| && Nth(list, p) == b && Link(nodes, b, l) == a
    ensures Chain(more, Spliced(list, x, p), l)
  {
    var longer := Spliced(list, x, p);
    hide Spliced, InOrder;
    forall k | -1 <= k < |longer|
      ensures IsNode(more, Nth(longer, k), l) && Link(more, Nth(longer, k), l) == Nth(longer, k + 1)
      ensures k >= 0 ==> HEAD < Nth(longer, k)
    {
      LinkAt(nodes, more, list, l, b, a, x, p, k);
    }
    assert forall k :: 0 <= k < |longer| ==> Nth(longer, k) == longer[k];
  }

  lemma LinkAt(nodes: seq<Node>, more: seq<Node>, list: seq<nat>, l: nat, b: nat, a: nat, x: nat, p: int, k: int)
    requires Chain(nodes, list, l) && InOrder(nodes, list) && SameExcept(nodes, more, b, l) && more[b].tower[l] == x
    requires HEAD < x && IsNode(nodes, x, l) && Link(nodes, x, l) == a && x !in list
    requires -1 <= p < |list| && Nth(list, p) == b && Link(nodes, b, l) == a && -1 <= k <= |list|
    ensures var longer := Spliced(list, x, p);
            && IsNode(more, Nth(longer, k), l) && Link(more, Nth(longer, k), l) == Nth(longer, k + 1)
            && Nth(longer, k) >= HEAD && (k >= 0 ==> Nth(longer, k) > HEAD)
  {
    var longer := Spliced(list, x, p);
    ChainAt(nodes, list, l, p);
    if k < p { ChainAt(nodes, list, l, k); NthDiffers(nodes, list, l, k, p); }
    if k > p + 1 { ChainAt(nodes, list, l, k - 1); NthDiffers(nodes, list, l, p, k - 1); }
    assert Nth(longer, k) == (if k <= p then Nth(list, k) else if k == p + 1 then x else Nth(list, k - 1));
    assert Nth(longer, k + 1) == (if k < p then Nth(list, k + 1) else if k == p then x else Nth(list, k));
    hide Spliced, Nth, Chain, InOrder;
  }

  lemma ChainAt(nodes: seq<Node>, list: seq<nat>, l: nat, k: int)
    requires Chain(nodes, list, l) && -1 <= k < |list|
    ensures IsNode(nodes, Nth(list, k), l) && Link(nodes, Nth(list, k), l) == Nth(list, k + 1)
    ensures k >= 0 ==> Nth(list, k) > HEAD
  {
  }

  lemma NthDiffers(nodes: seq<Node>, list: seq<nat>, l: nat, i: int, j: int)
    requires Chain(nodes, list, l) && InOrder(nodes, list) && -1 <= i < j < |list|
    ensures Nth(list, i) != Nth(list, j)
  {
  }

  /** The key of `x` fits after position `p`. */
  ghost predicate Fits(nodes: seq<Node>, list: seq<nat>, x: nat, p: int)
    requires InOrder(nodes, list) && x < |nodes| && -1 <= p < |list|
  {
    && (p >= 0 ==> Less(nodes[list[p]].key, nodes[x].key))
    && (p + 1 < |list| ==> Less(nodes[x].key, nodes[list[p + 1]].key))
  }

  lemma LinkOrder(nodes: seq<Node>, list: seq<nat>, x: nat, p: int)
    requires InOrder(nodes, list) && x < |nodes| && -1 <= p < |list| && Fits(nodes, list, x, p)
    ensures InOrder(nodes, Spliced(list, x, p))
  {
    forall k | 0 <= k <= p ensures Less(nodes[list[k]].key, nodes[x].key) {
      assert k < p ==> Less(nodes[list[k]].key, nodes[list[p]].key);
    }
    forall k | p < k < |list| ensures Less(nodes[x].key, nodes[list[k]].key) {
      assert p + 1 < k ==> Less(nodes[list[p + 1]].key, nodes[list[k]].key);
    }
    var longer := Spliced(list, x, p);
    hide Spliced, Less;
    forall i, j | 0 <= i < j < |longer| ensures Less(nodes[longer[i]].key, nodes[longer[j]].key) {
      if i == p + 1 {
        assert longer[j] == list[j - 1];
      } else if j == p + 1 {
        assert longer[i] == list[i];
      } else {
        var m, n := if i <= p then i else i - 1, if j <= p then j else j - 1;
        assert longer[i] == list[m] && longer[j] == list[n];
      }
    }
  }

  lemma SameOrder(nodes: seq<Node>, more: seq<Node>, list: seq<nat>)
    requires InOrder(nodes, list) && |more| >= |nodes| && forall x :: 0 <= x < |nodes| ==> more[x].key == nodes[x].key
    ensures InOrder(more, list)
  {
  }

  lemma LinkLevel(nodes: seq<Node>, more: seq<Node>, list: seq<nat>, b: nat, a: nat, x: nat, i: nat, p: int)
    requires Chain(nodes, list, i) && InOrder(nodes, list) && SameExcept(nodes, more, b, i) && more[b].tower[i] == x
    requires HEAD < x && IsNode(nodes, x, i) && Link(nodes, x, i) == a && x !in list
    requires -1 <= p < |list| && Nth(list, p) == b && (p >= 0 ==> Less(nodes[b].key, nodes[x].key))
    requires a != NIL ==> a < |nodes| && Less(nodes[x].key, nodes[a].key)
    requires Link(nodes, b, i) == a
    ensures Fits(nodes, list, x, p)
    ensures Chain(more, Spliced(list, x, p), i) && InOrder(more, Spliced(list, x, p))
  {
    assert Link(nodes, Nth(list, p), i) == Nth(list, p + 1);
    LinkChain(nodes, more, list, i, b, a, x, p);
    assert Fits(nodes, list, x, p);
    hide Chain, Fits, Spliced;
    LinkOrder(nodes, list, x, p);
    SameOrder(nodes, more, Spliced(list, x, p));
  }

  lemma LinkLevels(nodes: seq<Node>, more: seq<Node>, lists: seq<seq<nat>>, height: nat, b: nat, a: nat, x: nat, i: nat, p: int)
    requires Levels(nodes, lists, height) && i < height && HEAD < x && IsNode(nodes, x, i) && Link(nodes, x, i) == a
    requires x !in lists[i] && (i > 0 ==> x in lists[i - 1])
    requires -1 <= p < |lists[i]| && Nth(lists[i], p) == b && b < |nodes| && (p >= 0 ==> Less(nodes[b].key, nodes[x].key))
    requires a != NIL ==> a < |nodes| && Less(nodes[x].key, nodes[a].key)
    requires SameExcept(nodes, more, b, i) && Link(nodes, b, i) == a && more[b].tower[i] == x
    ensures Levels(more, lists[i := Spliced(lists[i], x, p)], height)
    ensures InOrder(nodes, lists[i]) && Fits(nodes, lists[i], x, p)
  {
    var list := lists[i];
    assert Chain(nodes, list, i) && InOrder(nodes, list);
    LinkLevel(nodes, more, list, b, a, x, i, p);
    forall l | 0 <= l < MAX_HEIGHT && l != i ensures Chain(more, lists[l], l) && InOrder(more, lists[l]) {
      OtherLink(nodes, more, lists[l], l, b, i);
    }
    hide Chain, InOrder, Spliced;
    LinkSubLists(lists, i, x, p);
  }

  lemma LinkSubLists(lists: seq<seq<nat>>, i: nat, x: nat, p: int)
    requires i < |lists| && -1 <= p < |lists[i]| && (i > 0 ==> x in lists[i - 1])
    requires forall l :: 0 < l < |lists| ==> SubList(lists[l], lists[l - 1])
    ensures var more := lists[i := Spliced(lists[i], x, p)];
            forall l :: 0 < l < |lists| ==> SubList(more[l], more[l - 1])
  {
  }

  lemma LinkContents(nodes: seq<Node>, more: seq<Node>, base: seq<nat>, x: nat, p: int)
    requires InOrder(nodes, base) && x < |nodes| && -1 <= p < |base| && |more| == |nodes| && Fits(nodes, base, x, p)
    requires forall y :: 0 <= y < |nodes| ==> more[y].key == nodes[y].key && more[y].vs == nodes[y].vs
    ensures var longer := Spliced(base, x, p);
            && (forall i :: 0 <= i < |longer| ==> longer[i] < |more|)
            && Contents(more, longer) == Inserted(Contents(nodes, base), Entry(nodes[x].key, nodes[x].vs))
  {
    AtSeek(nodes, base, nodes[x].key, p + 1);
    InsertedAt(Contents(nodes, base), Entry(nodes[x].key, nodes[x].vs), p + 1);
    ContentsSplice(nodes, more, base, x, p);
  }

  lemma InsertedAt(es: seq<Entry>, e: Entry, a: nat)
    requires SeekIndex(es, e.key) == a && (a < |es| ==> es[a].key != e.key)
    ensures a <= |es| && Inserted(es, e) == es[..a] + [e] + es[a..]
  {
  }

  lemma ContentsSplice(nodes: seq<Node>, more: seq<Node>, base: seq<nat>, x: nat, p: int)
    requires x < |nodes| && -1 <= p < |base| && |more| == |nodes|
    requires forall i :: 0 <= i < |base| ==> base[i] < |nodes|
    requires forall y :: 0 <= y < |nodes| ==> more[y].key == nodes[y].key && more[y].vs == nodes[y].vs
    ensures var longer, es := Spliced(base, x, p), Contents(nodes, base);
            && (forall i :: 0 <= i < |longer| ==> longer[i] < |more|)
            && Contents(more, longer) == es[..p + 1] + [Entry(nodes[x].key, nodes[x].vs)] + es[p + 1..]
  {
  }

  lemma SameContents(nodes: seq<Node>, more: seq<Node>, base: seq<nat>)
    requires |more| >= |nodes| && forall i :: 0 <= i < |base| ==> base[i] < |nodes|
    requires forall y :: 0 <= y < |nodes| ==> more[y].key == nodes[y].key && more[y].vs == nodes[y].vs
    ensures Contents(more, base) == Contents(nodes, base)
  {
  }

  /** Links may have changed; keys, values and heights have not. */
  predicate SameKeys(nodes: seq<Node>, more: seq<Node>) {
    && |more| == |nodes|
    && forall y :: 0 <= y < |nodes| ==>
         more[y].key == nodes[y].key && more[y].vs == nodes[y].vs && |more[y].tower| == |nodes[y].tower|
  }

  lemma SameKeysTrans(nodes: seq<Node>, mid: seq<Node>, more: seq<Node>, x: nat)
    requires SameKeys(nodes, mid) || nodes == mid
    requires SameKeys(mid, more) || mid == more
    ensures SameKeys(nodes, more) && |more| == |nodes|
    ensures x < |nodes| ==> more[x] == nodes[x].(tower := more[x].tower) && |more[x].tower| == |nodes[x].tower|
  {
  }

  lemma HeightIs(nodes: seq<Node>, lists: seq<seq<nat>>, height: nat)
    requires Levels(nodes, lists, height)
    ensures height <= MAX_HEIGHT == |lists|
  {
  }

  lemma SpliceLink(nodes: seq<Node>, lists: seq<seq<nat>>, height: nat, i: nat, key: Key, b: nat, a: nat, x: nat)
    requires Levels(nodes, lists, height) && i < MAX_HEIGHT && Splice(nodes, lists[i], key, b, a) && HEAD < x && x !in lists[i]
    ensures Precedes(nodes, lists[i], b, key) && IsNode(nodes, b, i) && Link(nodes, b, i) == a && b != x
    ensures a != NIL ==> a < |nodes| && Less(key, nodes[a].key)
  {
  }

  lemma SpliceBelow(nodes: seq<Node>, lists: seq<seq<nat>>, height: nat, i: nat, key: Key, b: nat, a: nat)
    requires Levels(nodes, lists, height) && i < height
    requires if i + 1 == height then b == HEAD else Splice(nodes, lists[i + 1], key, b, a)
    ensures Precedes(nodes, lists[i], b, key)
  {
  }

  /** A place stays right as long as no node comes in between. */
  lemma SpliceSame(nodes: seq<Node>, more: seq<Node>, list: seq<nat>, key: Key, b: nat, a: nat)
    requires SameKeys(nodes, more) || nodes <= more
    ensures Splice(nodes, list, key, b, a) ==> Splice(more, list, key, b, a)
  {
    if p :| SpliceAt(nodes, list, key, b, a, p) {
      assert SpliceAt(more, list, key, b, a, p);
    }
  }

  lemma SpliceEmpty(nodes: seq<Node>, key: Key)
    ensures Splice(nodes, [], key, HEAD, NIL)
  {
    assert SpliceAt(nodes, [], key, HEAD, NIL, -1);
  }
}
