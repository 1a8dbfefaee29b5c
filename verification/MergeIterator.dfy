/** Merging iterators (table/merge_iterator.go): a binary tree over the iterators of a lookup range,
    each node caching the heads of its two inputs.

    `MergeSeq` is what one node produces; `NewMergeIterator` builds the tree, and `FromEarliest` says
    what the tree as a whole yields: every key of the inputs once, in order, with the entry of the
    earliest input that has it. */
module MergeIterators {
  import opened Wrappers
  import opened Entries

  /** `a` comes before `b` in the direction of the iteration. */
  predicate Before(reverse: bool, a: Key, b: Key) {
    if reverse then Less(b, a) else Less(a, b)
  }

  ghost predicate Ordered(reverse: bool, es: seq<Entry>) {
    forall i, j :: 0 <= i < j < |es| ==> Before(reverse, es[i].key, es[j].key)
  }

  /** What a merge of `a` and `b` yields: of two entries with the same key only the one from `a`. */
  function MergeSeq(reverse: bool, a: seq<Entry>, b: seq<Entry>): seq<Entry> {
    if a == [] then b
    else if b == [] then a
    else if a[0].key == b[0].key then [a[0]] + MergeSeq(reverse, a[1..], b[1..])
    else if Before(reverse, a[0].key, b[0].key) then [a[0]] + MergeSeq(reverse, a[1..], b)
    else [b[0]] + MergeSeq(reverse, a, b[1..])
  }

  /** The part of `es` from the first entry that is not before `k`. */
  function From(reverse: bool, es: seq<Entry>, k: Key): seq<Entry> {
    if es == [] || !Before(reverse, es[0].key, k) then es else From(reverse, es[1..], k)
  }

  lemma {:induction false} FromAt(reverse: bool, es: seq<Entry>, k: Key, i: nat)
    requires i <= |es| && (forall j :: 0 <= j < i ==> Before(reverse, es[j].key, k))
    requires i < |es| ==> !Before(reverse, es[i].key, k)
    ensures From(reverse, es, k) == es[i..]
  {
    if i > 0 {
      FromAt(reverse, es[1..], k, i - 1);
      assert es[1..][i - 1..] == es[i..];
    }
  }

  predicate HasKey(es: seq<Entry>, k: Key) {
    exists i :: 0 <= i < |es| && es[i].key == k
  }

  lemma {:induction false} MergeMembers(reverse: bool, a: seq<Entry>, b: seq<Entry>, e: Entry)
    requires Ordered(reverse, a) && Ordered(reverse, b)
    ensures e in MergeSeq(reverse, a, b) <==> e in a || (e in b && !HasKey(a, e.key))
  {
    if a == [] || b == [] {
    } else {
      var x, y := a[0], b[0];
      assert a == [x] + a[1..] && b == [y] + b[1..];
      HasHead(a, e.key);
      if x.key == y.key {
        MergeMembers(reverse, a[1..], b[1..], e);
      } else if Before(reverse, x.key, y.key) {
        MergeMembers(reverse, a[1..], b, e);
        TailIsAfter(reverse, b, x.key);
      } else {
        MergeMembers(reverse, a, b[1..], e);
        TailIsAfter(reverse, a, y.key);
      }
    }
  }

  lemma HasHead(a: seq<Entry>, k: Key)
    requires a != []
    ensures HasKey(a, k) <==> a[0].key == k || HasKey(a[1..], k)
  {
  }

  lemma TailIsAfter(reverse: bool, b: seq<Entry>, k: Key)
    requires Ordered(reverse, b) && b != [] && Before(reverse, k, b[0].key)
    ensures forall e :: e in b ==> Before(reverse, k, e.key)
    ensures !HasKey(b, k)
  {
  }

  lemma {:induction false} MergeOrdered(reverse: bool, a: seq<Entry>, b: seq<Entry>)
    requires Ordered(reverse, a) && Ordered(reverse, b)
    ensures Ordered(reverse, MergeSeq(reverse, a, b))
  {
    if a == [] || b == [] {
    } else {
      var x, y := a[0], b[0];
      if x.key == y.key {
        MergeOrdered(reverse, a[1..], b[1..]);
        OrderedCons(reverse, x, a[1..], b[1..]);
      } else if Before(reverse, x.key, y.key) {
        MergeOrdered(reverse, a[1..], b);
        TailIsAfter(reverse, b, x.key);
        OrderedCons(reverse, x, a[1..], b);
      } else {
        MergeOrdered(reverse, a, b[1..]);
        TailIsAfter(reverse, a, y.key);
        OrderedCons(reverse, y, a, b[1..]);
      }
    }
  }

  lemma OrderedCons(reverse: bool, x: Entry, a: seq<Entry>, b: seq<Entry>)
    requires Ordered(reverse, a) && Ordered(reverse, b) && Ordered(reverse, MergeSeq(reverse, a, b))
    requires forall e :: e in a || e in b ==> Before(reverse, x.key, e.key)
    ensures Ordered(reverse, [x] + MergeSeq(reverse, a, b))
  {
    var m := MergeSeq(reverse, a, b);
    forall i | 0 <= i < |m| ensures Before(reverse, x.key, m[i].key) {
      MergeMembers(reverse, a, b, m[i]);
    }
  }

  /** A merge can skip ahead by skipping in both inputs. */
  lemma {:induction false} MergeFrom(reverse: bool, a: seq<Entry>, b: seq<Entry>, k: Key)
    requires Ordered(reverse, a) && Ordered(reverse, b)
    ensures From(reverse, MergeSeq(reverse, a, b), k) == MergeSeq(reverse, From(reverse, a, k), From(reverse, b, k))
  {
    if a == [] || b == [] {
    } else {
      var x, y := a[0], b[0];
      if x.key == y.key {
        MergeFrom(reverse, a[1..], b[1..], k);
        assert ([x] + MergeSeq(reverse, a[1..], b[1..]))[1..] == MergeSeq(reverse, a[1..], b[1..]);
      } else if Before(reverse, x.key, y.key) {
        MergeFrom(reverse, a[1..], b, k);
        assert ([x] + MergeSeq(reverse, a[1..], b))[1..] == MergeSeq(reverse, a[1..], b);
      } else {
        MergeFrom(reverse, a, b[1..], k);
        assert ([y] + MergeSeq(reverse, a, b[1..]))[1..] == MergeSeq(reverse, a, b[1..]);
      }
    }
  }

  // ---------------------------------------------------------------- the tree

  /** An iterator over one sorted source: `all` is in the order of the iteration. */
  class LeafIterator {
    const all: seq<Entry>
    const reverse: bool
    var pos: nat

    constructor (all: seq<Entry>, reverse: bool)
      ensures this.all == all && this.reverse == reverse
    {
      this.all, this.reverse, pos := all, reverse, 0;
    }
  }

  datatype Iter = Leaf(leaf: LeafIterator) | Merge(merge: MergeIterator)

  /** The cached head of an input. */
  datatype Node = Node(valid: bool, key: Key)

  ghost function Repr(it: Iter): set<object> {
    match it case Leaf(l) => {l} case Merge(m) => m.repr
  }

  ghost function Height(it: Iter): nat {
    match it case Leaf(_) => 0 case Merge(m) => m.height
  }

  function Reverse(it: Iter): bool {
    match it case Leaf(l) => l.reverse case Merge(m) => m.reverse
  }

  /** The tree is a tree, over sorted sources, all in one direction. */
  ghost predicate Wired(it: Iter)
    decreases Height(it)
  {
    match it
    case Leaf(l) => Ordered(l.reverse, l.all)
    case Merge(m) =>
      && Height(m.leftIter) < m.height && Height(m.rightIter) < m.height
      && m.repr == {m} + Repr(m.leftIter) + Repr(m.rightIter)
      && m !in Repr(m.leftIter) && m !in Repr(m.rightIter) && Repr(m.leftIter) !! Repr(m.rightIter)
      && Reverse(m.leftIter) == Reverse(m.rightIter) == m.reverse
      && Wired(m.leftIter) && Wired(m.rightIter)
  }

  /** Everything the iterator yields, from Rewind to the end. */
  ghost function All(it: Iter): seq<Entry>
    requires Wired(it)
    decreases Height(it)
  {
    match it
    case Leaf(l) => l.all
    case Merge(m) => MergeSeq(m.reverse, All(m.leftIter), All(m.rightIter))
  }

  /** What is left to yield; the current entry comes first. */
  ghost function Rest(it: Iter): seq<Entry>
    requires Wired(it)
    reads Repr(it)
    decreases Height(it)
  {
    match it
    case Leaf(l) => if l.pos <= |l.all| then l.all[l.pos..] else []
    case Merge(m) => MergeSeq(m.reverse, Rest(m.leftIter), Rest(m.rightIter))
  }

  ghost predicate Synced(n: Node, rest: seq<Entry>) {
    n.valid == (rest != []) && (n.valid ==> n.key == rest[0].key)
  }

  /** The cached heads are right, they differ, and `small` is the one to yield next. */
  ghost predicate Settled(m: MergeIterator)
    requires Wired(Merge(m))
    reads m.repr
    decreases m.height, 0
  {
    var a, b := Rest(m.leftIter), Rest(m.rightIter);
    && Ready(m.leftIter) && Ready(m.rightIter) && Synced(m.left, a) && Synced(m.right, b)
    && (if a == [] then b == [] || !m.smallIsLeft
        else if b == [] then m.smallIsLeft
        else a[0].key != b[0].key && (m.smallIsLeft <==> Before(m.reverse, a[0].key, b[0].key)))
  }

  ghost predicate Ready(it: Iter)
    requires Wired(it)
    reads Repr(it)
    decreases Height(it), 1
  {
    match it
    case Leaf(l) => true
    case Merge(m) => Settled(m) && (Rest(it) != [] ==> m.curKey == Rest(it)[0].key)
  }

  /** Of two equal heads the right one does not matter. */
  lemma PassOver(reverse: bool, a: seq<Entry>, b: seq<Entry>)
    requires a != [] && b != [] && a[0].key == b[0].key && Ordered(reverse, b)
    ensures MergeSeq(reverse, a, b[1..]) == MergeSeq(reverse, a, b)
    ensures b[1..] != [] ==> Before(reverse, a[0].key, b[1..][0].key)
  {
  }

  lemma {:induction false} RestOrdered(it: Iter)
    requires Wired(it)
    ensures Ordered(Reverse(it), Rest(it))
    decreases Height(it)
  {
    if it.Merge? {
      RestOrdered(it.merge.leftIter);
      RestOrdered(it.merge.rightIter);
      MergeOrdered(it.merge.reverse, Rest(it.merge.leftIter), Rest(it.merge.rightIter));
    }
  }

  class MergeIterator {
    const leftIter: Iter
    const rightIter: Iter
    const reverse: bool
    ghost const repr: set<object>
    ghost const height: nat
    var left: Node
    var right: Node
    var smallIsLeft: bool
    var curKey: Key

    constructor (leftIter: Iter, rightIter: Iter, reverse: bool)
      requires Wired(leftIter) && Wired(rightIter) && Repr(leftIter) !! Repr(rightIter)
      requires Reverse(leftIter) == Reverse(rightIter) == reverse
      ensures Wired(Merge(this)) && All(Merge(this)) == MergeSeq(reverse, All(leftIter), All(rightIter))
      ensures fresh(this) && repr == {this} + Repr(leftIter) + Repr(rightIter) && this.reverse == reverse
    {
      this.leftIter, this.rightIter, this.reverse := leftIter, rightIter, reverse;
      repr := {this} + Repr(leftIter) + Repr(rightIter);
      height := Height(leftIter) + Height(rightIter) + 1;
      left, right, smallIsLeft, curKey := Node(false, Key(0, 0)), Node(false, Key(0, 0)), true, Key(0, 0);
    }

    predicate Valid()
      reads this
    {
      if smallIsLeft then left.valid else right.valid
    }

    function SmallKey(): Key
      reads this
    {
      if smallIsLeft then left.key else right.key
    }

    /** Points `small` at the input to yield next; of two equal heads the right one is passed over. */
    method Fix()
      requires Wired(Merge(this)) && Ready(leftIter) && Ready(rightIter)
      requires Synced(left, Rest(leftIter)) && Synced(right, Rest(rightIter))
      modifies repr
      ensures Settled(this) && Rest(Merge(this)) == old(Rest(Merge(this))) && curKey == old(curKey)
      decreases height, 2
    {
      hide MergeSeq, Ordered, Ready;
      var bigger := if smallIsLeft then right else left;
      if !bigger.valid {
        return;
      }
      if !Valid() {
        smallIsLeft := !smallIsLeft;
        return;
      }
      if SmallKey() == bigger.key {
        DropRight();
      } else if Less(SmallKey(), bigger.key) {
        if reverse {
          smallIsLeft := !smallIsLeft;
        }
      } else if !reverse {
        smallIsLeft := !smallIsLeft;
      }
    }

    /** Both heads have the same key: only the left one counts. */
    method DropRight()
      requires Wired(Merge(this)) && Ready(leftIter) && Ready(rightIter)
      requires Synced(left, Rest(leftIter)) && Synced(right, Rest(rightIter))
      requires left.valid && right.valid && left.key == right.key
      modifies `right, `smallIsLeft, Repr(rightIter)
      ensures Settled(this) && Rest(Merge(this)) == old(Rest(Merge(this)))
      decreases height, 1, 1
    {
      hide MergeSeq, Ordered, Ready;
      RestOrdered(rightIter);
      PassOver(reverse, Rest(leftIter), Rest(rightIter));
      NextRight();
      smallIsLeft := true;
    }

    method NextRight()
      requires Wired(Merge(this)) && Ready(rightIter) && Rest(rightIter) != []
      modifies `right, Repr(rightIter)
      ensures Ready(rightIter) && Rest(rightIter) == old(Rest(rightIter))[1..] && Synced(right, Rest(rightIter))
      decreases height, 1, 0
    {
      Next(rightIter);
      right := SetKey(rightIter, right);
    }

    method NextLeft()
      requires Wired(Merge(this)) && Ready(leftIter) && Rest(leftIter) != []
      modifies `left, Repr(leftIter)
      ensures Ready(leftIter) && Rest(leftIter) == old(Rest(leftIter))[1..] && Synced(left, Rest(leftIter))
      decreases height, 1
    {
      Next(leftIter);
      left := SetKey(leftIter, left);
    }

    /** One entry further; the loop passes over whatever still has the current key. */
    method MoveOn()
      requires Wired(Merge(this)) && Ready(Merge(this)) && Rest(Merge(this)) != []
      modifies repr
      ensures Ready(Merge(this)) && Rest(Merge(this)) == old(Rest(Merge(this)))[1..]
      decreases height, 4
    {
      hide MergeSeq;
      RestOrdered(Merge(this));
      ghost var before := Rest(Merge(this));
      while Valid() && SmallKey() == curKey
        invariant Wired(Merge(this)) && Settled(this) && curKey == before[0].key
        invariant Rest(Merge(this)) == before || Rest(Merge(this)) == before[1..]
        decreases |Rest(Merge(this))|
      {
        HeadIsSmall(this);
        Step();
      }
      HeadIsSmall(this);
      curKey := SmallKey();
    }

    /** The body of the loop. */
    method Step()
      requires Wired(Merge(this)) && Settled(this) && Rest(Merge(this)) != []
      modifies repr
      ensures Settled(this) && Rest(Merge(this)) == old(Rest(Merge(this)))[1..] && curKey == old(curKey)
      decreases height, 3
    {
      if smallIsLeft {
        NextLeft();
      } else {
        NextRight();
      }
      Fix();
    }

    method RewindBoth()
      requires Wired(Merge(this))
      modifies repr
      ensures Ready(Merge(this)) && Rest(Merge(this)) == All(Merge(this))
      decreases height, 4
    {
      hide MergeSeq, Ready, Settled, Synced;
      RewindLeft();
      RewindRight();
      SetCurrent();
    }

    method SeekBoth(key: Key)
      requires Wired(Merge(this))
      modifies repr
      ensures Ready(Merge(this)) && Rest(Merge(this)) == From(reverse, All(Merge(this)), key)
      decreases height, 4
    {
      hide MergeSeq, Ready, Settled, Synced, From, Ordered;
      SeekLeft(key);
      SeekRight(key);
      AllOrdered(leftIter);
      AllOrdered(rightIter);
      MergeFrom(reverse, All(leftIter), All(rightIter), key);
      SetCurrent();
    }

    method SetCurrent()
      requires Wired(Merge(this)) && Ready(leftIter) && Ready(rightIter)
      requires Synced(left, Rest(leftIter)) && Synced(right, Rest(rightIter))
      modifies repr
      ensures Ready(Merge(this)) && Rest(Merge(this)) == old(Rest(Merge(this)))
      decreases height, 3
    {
      hide MergeSeq;
      Fix();
      HeadIsSmall(this);
      curKey := SmallKey();
    }

    method RewindLeft()
      requires Wired(Merge(this))
      modifies `left, Repr(leftIter)
      ensures Ready(leftIter) && Rest(leftIter) == All(leftIter) && Synced(left, Rest(leftIter))
      decreases height, 1
    {
      Rewind(leftIter);
      left := SetKey(leftIter, left);
    }

    method RewindRight()
      requires Wired(Merge(this))
      modifies `right, Repr(rightIter)
      ensures Ready(rightIter) && Rest(rightIter) == All(rightIter) && Synced(right, Rest(rightIter))
      decreases height, 1
    {
      Rewind(rightIter);
      right := SetKey(rightIter, right);
    }

    method SeekLeft(key: Key)
      requires Wired(Merge(this))
      modifies `left, Repr(leftIter)
      ensures Ready(leftIter) && Rest(leftIter) == From(reverse, All(leftIter), key) && Synced(left, Rest(leftIter))
      decreases height, 1
    {
      Seek(leftIter, key);
      left := SetKey(leftIter, left);
    }

    method SeekRight(key: Key)
      requires Wired(Merge(this))
      modifies `right, Repr(rightIter)
      ensures Ready(rightIter) && Rest(rightIter) == From(reverse, All(rightIter), key) && Synced(right, Rest(rightIter))
      decreases height, 1
    {
      Seek(rightIter, key);
      right := SetKey(rightIter, right);
    }
  }

  lemma {:induction false} AllOrdered(it: Iter)
    requires Wired(it)
    ensures Ordered(Reverse(it), All(it))
    decreases Height(it)
  {
    if it.Merge? {
      AllOrdered(it.merge.leftIter);
      AllOrdered(it.merge.rightIter);
      MergeOrdered(it.merge.reverse, All(it.merge.leftIter), All(it.merge.rightIter));
    }
  }

  /** The node's own view of its state is the head of what is left. */
  lemma HeadIsSmall(m: MergeIterator)
    requires Wired(Merge(m)) && Settled(m)
    ensures var rest, a, b := Rest(Merge(m)), Rest(m.leftIter), Rest(m.rightIter);
            if rest == [] then !m.Valid()
            else
              && m.Valid() && m.SmallKey() == rest[0].key
              && (if m.smallIsLeft then a != [] && rest[0] == a[0] && rest[1..] == MergeSeq(m.reverse, a[1..], b)
                  else b != [] && rest[0] == b[0] && rest[1..] == MergeSeq(m.reverse, a, b[1..]))
  {
  }

  // ---------------------------------------------------------------- the iterator interface

  method SetKey(it: Iter, n: Node) returns (r: Node)
    requires Wired(it) && Ready(it)
    ensures Synced(r, Rest(it))
  {
    match it
    case Leaf(l) =>
      var valid := l.pos < |l.all|;
      r := Node(valid, if valid then l.all[l.pos].key else n.key);
    case Merge(m) =>
      HeadIsSmall(m);
      var valid := m.Valid();
      r := Node(valid, if valid then m.SmallKey() else n.key);
  }

  method Next(it: Iter)
    requires Wired(it) && Ready(it) && Rest(it) != []
    modifies Repr(it)
    ensures Ready(it) && Rest(it) == old(Rest(it))[1..]
    decreases Height(it), 5
  {
    match it
    case Leaf(l) => l.pos := l.pos + 1;
    case Merge(m) => m.MoveOn();
  }

  method Rewind(it: Iter)
    requires Wired(it)
    modifies Repr(it)
    ensures Ready(it) && Rest(it) == All(it)
    decreases Height(it), 5
  {
    match it
    case Leaf(l) => l.pos := 0;
    case Merge(m) => m.RewindBoth();
  }

  method Seek(it: Iter, key: Key)
    requires Wired(it)
    modifies Repr(it)
    ensures Ready(it) && Rest(it) == From(Reverse(it), All(it), key)
    decreases Height(it), 5
  {
    match it
    case Leaf(l) =>
      l.pos := 0;
      while l.pos < |l.all| && Before(l.reverse, l.all[l.pos].key, key)
        invariant l.pos <= |l.all| && From(l.reverse, l.all[l.pos..], key) == From(l.reverse, l.all, key)
      {
        l.pos := l.pos + 1;
      }
    case Merge(m) => m.SeekBoth(key);
  }

  method IsValid(it: Iter) returns (valid: bool)
    requires Wired(it) && Ready(it)
    ensures valid == (Rest(it) != [])
  {
    match it
    case Leaf(l) => valid := l.pos < |l.all|;
    case Merge(m) =>
      HeadIsSmall(m);
      valid := m.Valid();
  }

  /** The current entry: Key and Value follow `small` down to a source. */
  method Current(it: Iter) returns (e: Entry)
    requires Wired(it) && Ready(it) && Rest(it) != []
    ensures e == Rest(it)[0]
    decreases Height(it)
  {
    match it
    case Leaf(l) => e := l.all[l.pos];
    case Merge(m) =>
      HeadIsSmall(m);
      if m.smallIsLeft {
        e := Current(m.leftIter);
      } else {
        e := Current(m.rightIter);
      }
  }

  // ---------------------------------------------------------------- building the tree

  /** `e` is in input `i`, and no earlier input has its key. */
  predicate Earliest(lists: seq<seq<Entry>>, i: nat, e: Entry)
    requires i < |lists|
  {
    e in lists[i] && forall j :: 0 <= j < i ==> !HasKey(lists[j], e.key)
  }

  /** `all` is the ordered union of the inputs: every key once, with the entry of the earliest input
      that has it. */
  ghost predicate FromEarliest(reverse: bool, lists: seq<seq<Entry>>, all: seq<Entry>) {
    && Ordered(reverse, all)
    && forall e :: e in all <==> exists i :: 0 <= i < |lists| && Earliest(lists, i, e)
  }

  lemma {:induction false} FirstWith(lists: seq<seq<Entry>>, k: Key, i: nat) returns (e: Entry, j: nat)
    requires i < |lists| && HasKey(lists[i], k)
    ensures j < |lists| && Earliest(lists, j, e) && e.key == k
  {
    if h :| 0 <= h < i && HasKey(lists[h], k) {
      e, j := FirstWith(lists, k, h);
    } else {
      var h :| 0 <= h < |lists[i]| && lists[i][h].key == k;
      e, j := lists[i][h], i;
    }
  }

  lemma UnionHasKey(reverse: bool, lists: seq<seq<Entry>>, all: seq<Entry>, k: Key)
    requires FromEarliest(reverse, lists, all)
    ensures HasKey(all, k) <==> exists i :: 0 <= i < |lists| && HasKey(lists[i], k)
  {
    if HasKey(all, k) {
      var h :| 0 <= h < |all| && all[h].key == k;
      assert all[h] in all;
      var i :| 0 <= i < |lists| && Earliest(lists, i, all[h]);
    }
    if i :| 0 <= i < |lists| && HasKey(lists[i], k) {
      var e, j := FirstWith(lists, k, i);
      assert e in all;
    }
  }

  lemma EarliestAfter(l: seq<seq<Entry>>, m: seq<seq<Entry>>, i: nat, e: Entry)
    requires i < |l + m|
    ensures Earliest(l + m, i, e) <==>
              if i < |l| then Earliest(l, i, e)
              else Earliest(m, i - |l|, e) && forall j :: 0 <= j < |l| ==> !HasKey(l[j], e.key)
  {
    if i >= |l| {
      assert forall j :: 0 <= j < i - |l| ==> (l + m)[j + |l|] == m[j];
      if Earliest(l + m, i, e) {
        forall j | 0 <= j < i - |l| ensures !HasKey(m[j], e.key) {
          assert !HasKey((l + m)[j + |l|], e.key);
        }
        forall j | 0 <= j < |l| ensures !HasKey(l[j], e.key) {
          assert !HasKey((l + m)[j], e.key);
        }
      }
    } else {
      forall j | 0 <= j < i ensures (l + m)[j] == l[j] {
      }
    }
  }

  /** Merging two unions gives the union of all their inputs. */
  lemma UnionJoins(reverse: bool, l: seq<seq<Entry>>, m: seq<seq<Entry>>, x: seq<Entry>, y: seq<Entry>)
    requires FromEarliest(reverse, l, x) && FromEarliest(reverse, m, y)
    ensures FromEarliest(reverse, l + m, MergeSeq(reverse, x, y))
  {
    MergeOrdered(reverse, x, y);
    forall e ensures e in MergeSeq(reverse, x, y) <==> exists i :: 0 <= i < |l + m| && Earliest(l + m, i, e) {
      MergeMembers(reverse, x, y, e);
      UnionHasKey(reverse, l, x, e.key);
      UnionMember(l, m, e);
    }
  }

  lemma UnionMember(l: seq<seq<Entry>>, m: seq<seq<Entry>>, e: Entry)
    ensures (exists i :: 0 <= i < |l + m| && Earliest(l + m, i, e)) <==>
              || (exists i :: 0 <= i < |l| && Earliest(l, i, e))
              || ((exists i :: 0 <= i < |m| && Earliest(m, i, e)) && !exists j :: 0 <= j < |l| && HasKey(l[j], e.key))
  {
    if i :| 0 <= i < |l + m| && Earliest(l + m, i, e) {
      EarliestAfter(l, m, i, e);
    }
    if i :| 0 <= i < |l| && Earliest(l, i, e) {
      EarliestAfter(l, m, i, e);
      assert Earliest(l + m, i, e);
    }
    if i :| 0 <= i < |m| && Earliest(m, i, e) && !exists j :: 0 <= j < |l| && HasKey(l[j], e.key) {
      EarliestAfter(l, m, i + |l|, e);
      assert Earliest(l + m, i + |l|, e);
    }
  }

  /** There is only one such union. */
  lemma {:induction false} UnionIsUnique(reverse: bool, x: seq<Entry>, y: seq<Entry>)
    requires Ordered(reverse, x) && Ordered(reverse, y) && forall e :: e in x <==> e in y
    ensures x == y
  {
    if x == [] {
      FirstIn(y);
    } else {
      assert x[0] in y && (y != [] ==> y[0] in x);
      var i :| 0 <= i < |y| && y[i] == x[0];
      var j :| 0 <= j < |x| && x[j] == y[0];
      assert i == 0;
      forall e ensures e in x[1..] <==> e in y[1..] {
        TailMember(reverse, x, e);
        TailMember(reverse, y, e);
      }
      UnionIsUnique(reverse, x[1..], y[1..]);
    }
  }

  lemma FirstIn(y: seq<Entry>)
    ensures y == [] || y[0] in y
  {
  }

  lemma TailMember(reverse: bool, x: seq<Entry>, e: Entry)
    requires Ordered(reverse, x) && x != []
    ensures e in x[1..] <==> e in x && e != x[0]
  {
  }

  ghost predicate AllWired(iters: seq<Iter>, reverse: bool) {
    && (forall i :: 0 <= i < |iters| ==> Wired(iters[i]) && Reverse(iters[i]) == reverse)
    && forall i, j :: 0 <= i < j < |iters| ==> Repr(iters[i]) !! Repr(iters[j])
  }

  ghost function Alls(iters: seq<Iter>): seq<seq<Entry>>
    requires forall i :: 0 <= i < |iters| ==> Wired(iters[i])
  {
    seq(|iters|, i requires 0 <= i < |iters| => All(iters[i]))
  }

  ghost predicate InReprs(iters: seq<Iter>, o: object) {
    exists i :: 0 <= i < |iters| && o in Repr(iters[i])
  }

  /** The tree yields the ordered union of its inputs, the earliest input winning. */
  method NewMergeIterator(iters: seq<Iter>, reverse: bool) returns (r: Option<Iter>)
    requires AllWired(iters, reverse)
    ensures r.None? <==> iters == []
    ensures r.Some? ==>
              && Wired(r.value) && Reverse(r.value) == reverse
              && FromEarliest(reverse, Alls(iters), All(r.value))
    ensures r.Some? ==> forall o :: o in Repr(r.value) ==> InReprs(iters, o) || fresh(o)
    decreases |iters|
  {
    hide FromEarliest, Wired;
    if |iters| == 0 {
      return None;
    }
    if |iters| == 1 {
      AllOrdered(iters[0]);
      assert Alls(iters)[0] == All(iters[0]);
      OneUnion(reverse, Alls(iters));
      return Some(iters[0]);
    }
    if |iters| == 2 {
      r := NewPair(iters, reverse);
      return;
    }
    var mid := |iters| / 2;
    HalvesWired(iters, mid, reverse);
    var left := NewMergeIterator(iters[..mid], reverse);
    var right := NewMergeIterator(iters[mid..], reverse);
    HalvesApart(iters, mid, reverse);
    var two := [left.value, right.value];
    r := NewMergeIterator(two, reverse);
    HalvesUnion(reverse, iters, mid, two, All(r.value));
  }

  lemma HalvesWired(iters: seq<Iter>, mid: nat, reverse: bool)
    requires AllWired(iters, reverse) && mid <= |iters|
    ensures AllWired(iters[..mid], reverse) && AllWired(iters[mid..], reverse)
  {
  }

  lemma HalvesApart(iters: seq<Iter>, mid: nat, reverse: bool)
    requires AllWired(iters, reverse) && mid <= |iters|
    ensures forall o :: !(InReprs(iters[..mid], o) && InReprs(iters[mid..], o))
    ensures forall o :: InReprs(iters[..mid], o) || InReprs(iters[mid..], o) ==> InReprs(iters, o)
  {
  }

  method NewPair(iters: seq<Iter>, reverse: bool) returns (r: Option<Iter>)
    requires AllWired(iters, reverse) && |iters| == 2
    ensures r.Some? && Wired(r.value) && Reverse(r.value) == reverse
    ensures FromEarliest(reverse, Alls(iters), All(r.value))
    ensures forall o :: o in Repr(r.value) ==> InReprs(iters, o) || fresh(o)
  {
    hide FromEarliest;
    var mi := new MergeIterator(iters[0], iters[1], reverse);
    TwoUnion(reverse, iters);
    r := Some(Merge(mi));
  }

  lemma OneUnion(reverse: bool, lists: seq<seq<Entry>>)
    requires |lists| == 1 && Ordered(reverse, lists[0])
    ensures FromEarliest(reverse, lists, lists[0])
  {
    forall e | e in lists[0] ensures Earliest(lists, 0, e) {
    }
  }

  lemma TwoUnion(reverse: bool, iters: seq<Iter>)
    requires AllWired(iters, reverse) && |iters| == 2
    ensures FromEarliest(reverse, Alls(iters), MergeSeq(reverse, All(iters[0]), All(iters[1])))
  {
    var a, b := All(iters[0]), All(iters[1]);
    AllOrdered(iters[0]);
    AllOrdered(iters[1]);
    OneUnion(reverse, [a]);
    OneUnion(reverse, [b]);
    UnionJoins(reverse, [a], [b], a, b);
    assert Alls(iters) == [a] + [b];
  }

  lemma HalvesUnion(reverse: bool, iters: seq<Iter>, mid: nat, two: seq<Iter>, all: seq<Entry>)
    requires AllWired(iters, reverse) && mid <= |iters| && |two| == 2 && AllWired(two, reverse)
    requires FromEarliest(reverse, Alls(iters[..mid]), All(two[0])) && FromEarliest(reverse, Alls(iters[mid..]), All(two[1]))
    requires FromEarliest(reverse, Alls(two), all)
    ensures FromEarliest(reverse, Alls(iters), all)
  {
    var joined := MergeSeq(reverse, All(two[0]), All(two[1]));
    UnionJoins(reverse, Alls(iters[..mid]), Alls(iters[mid..]), All(two[0]), All(two[1]));
    assert Alls(iters) == Alls(iters[..mid]) + Alls(iters[mid..]);
    TwoUnion(reverse, two);
    UnionIsUnique(reverse, all, joined);
  }

  // ---------------------------------------------------------------- the two directions

  function Flip(es: seq<Entry>): (r: seq<Entry>)
    ensures |r| == |es| && forall i :: 0 <= i < |es| ==> r[i] == es[|es| - 1 - i]
  {
    seq(|es|, i requires 0 <= i < |es| => es[|es| - 1 - i])
  }

  lemma FlipMembers(es: seq<Entry>)
    ensures forall e :: e in Flip(es) <==> e in es
    ensures forall k :: HasKey(Flip(es), k) <==> HasKey(es, k)
  {
    forall i | 0 <= i < |es| ensures es[i] == Flip(es)[|es| - 1 - i] {
    }
  }

  lemma FlipOrdered(reverse: bool, es: seq<Entry>)
    requires Ordered(reverse, es)
    ensures Ordered(!reverse, Flip(es))
  {
  }

  ghost predicate Flipped(lists: seq<seq<Entry>>, back: seq<seq<Entry>>) {
    |lists| == |back| && forall i :: 0 <= i < |lists| ==> back[i] == Flip(lists[i])
  }

  /** Over the same sources backwards, the tree yields the same entries backwards. */
  lemma ReverseIsFlipped(lists: seq<seq<Entry>>, back: seq<seq<Entry>>, forth: seq<Entry>, all: seq<Entry>)
    requires Flipped(lists, back) && FromEarliest(false, lists, forth) && FromEarliest(true, back, all)
    ensures all == Flip(forth)
  {
    FlipMembers(forth);
    FlipOrdered(false, forth);
    forall e ensures e in all <==> e in Flip(forth) {
      forall i | 0 <= i < |lists| ensures Earliest(lists, i, e) <==> Earliest(back, i, e) {
        forall j | 0 <= j <= i ensures HasKey(back[j], e.key) <==> HasKey(lists[j], e.key) {
          FlipMembers(lists[j]);
        }
        FlipMembers(lists[i]);
      }
    }
    UnionIsUnique(true, all, Flip(forth));
  }
}
