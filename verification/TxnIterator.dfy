/** Iterating over a transaction's snapshot (iterator.go parseItem, Next, prefetch, Seek).

    The merged stream has every version of every key; the iterator turns it into the snapshot, in
    either direction, a few items ahead of its caller. `Shown` says which entries belong to the
    snapshot without following the loop. */
module TxnIterators {
  import opened Wrappers
  import opened Entries
  import opened MergeIterators

  /** The user keys that start with a prefix are a range, and the prefix itself is the least of them
      (`PickedTables.PrefixMonotone`). */
  datatype Prefix = Prefix(lo: int, hi: int)

  /** The options of an iteration; `hidden` are the internal keys, when there is no access to them. */
  datatype View = View(readTs: nat, sinceTs: nat, allVersions: bool, reverse: bool, now: nat, hidden: set<int>,
                       prefix: Option<Prefix>, prefixIsKey: bool)

  /** hasPrefix, which ends the reading ahead; it is not looked at in reverse. */
  predicate HasPrefix(v: View, user: int) {
    !v.reverse && v.prefix.Some? ==> v.prefix.value.lo <= user <= v.prefix.value.hi
  }

  /** The test of Iterator.Valid on the current item. */
  predicate Fits(v: View, user: int) {
    v.prefix.Some? ==>
      if v.prefixIsKey then user == v.prefix.value.lo else v.prefix.value.lo <= user <= v.prefix.value.hi
  }

  predicate InView(v: View, e: Entry) {
    && e.key.user !in v.hidden
    && !(e.key.ts > v.readTs || (v.sinceTs > 0 && e.key.ts <= v.sinceTs))
  }

  predicate IsNewest(v: View, es: seq<Entry>, e: Entry) {
    forall x :: x in es && InView(v, x) && x.key.user == e.key.user ==> x.key.ts <= e.key.ts
  }

  /** The entries an iteration shows: of each key the newest version in view, unless it is deleted or
      expired; with AllVersions every version in view. */
  predicate Shown(v: View, es: seq<Entry>, e: Entry) {
    && e in es && InView(v, e)
    && (v.allVersions || (IsNewest(v, es, e) && !e.vs.meta.delete && (e.vs.expiresAt == 0 || e.vs.expiresAt > v.now)))
  }

  // ---------------------------------------------------------------- the stream of items

  /** What going forward over `es` yields when `last` is the last user key looked at. */
  function Forward(v: View, es: seq<Entry>, last: Option<int>): seq<Entry> {
    if es == [] then []
    else
      var e := es[0];
      if !InView(v, e) then Forward(v, es[1..], last)
      else if v.allVersions then [e] + Forward(v, es[1..], last)
      else if last == Some(e.key.user) then Forward(v, es[1..], last)
      else (if IsDeletedOrExpired(e.vs, v.now) then [] else [e]) + Forward(v, es[1..], Some(e.key.user))
  }

  /** A newer version of the same key, still in view, comes next. */
  predicate Overtaken(v: View, es: seq<Entry>) {
    |es| > 1 && es[1].key.ts <= v.readTs && es[1].key.user == es[0].key.user
  }

  /** What going backward over `es` yields: the oldest version of a key comes first. */
  function Backward(v: View, es: seq<Entry>): seq<Entry> {
    if es == [] then []
    else
      var e := es[0];
      if !InView(v, e) then Backward(v, es[1..])
      else if v.allVersions then [e] + Backward(v, es[1..])
      else (if IsDeletedOrExpired(e.vs, v.now) || Overtaken(v, es) then [] else [e]) + Backward(v, es[1..])
  }

  function Items(v: View, es: seq<Entry>, last: Option<int>): seq<Entry> {
    if v.reverse then Backward(v, es) else Forward(v, es, last)
  }

  /** As far as the prefix goes. */
  function Within(v: View, es: seq<Entry>): seq<Entry> {
    if es == [] || !HasPrefix(v, es[0].key.user) then [] else [es[0]] + Within(v, es[1..])
  }

  lemma {:induction false} WithinAll(v: View, es: seq<Entry>)
    requires v.reverse || v.prefix.None?
    ensures Within(v, es) == es
  {
    if es != [] { WithinAll(v, es[1..]); }
  }

  lemma WithinStep(v: View, es: seq<Entry>)
    requires es != [] && HasPrefix(v, es[0].key.user)
    ensures Within(v, es) != [] && Within(v, es)[0] == es[0] && Within(v, es)[1..] == Within(v, es[1..])
  {
  }

  /** What a caller sees that stops when the iterator is not valid. */
  function UpTo(v: View, es: seq<Entry>): seq<Entry> {
    if es == [] || !Fits(v, es[0].key.user) then [] else [es[0]] + UpTo(v, es[1..])
  }

  lemma {:induction false} ForwardShows(v: View, es: seq<Entry>, last: Option<int>, e: Entry)
    requires Ordered(false, es) && (last.Some? ==> forall x :: x in es ==> last.value <= x.key.user)
    ensures e in Forward(v, es, last) <==> Shown(v, es, e) && (v.allVersions || last != Some(e.key.user))
  {
    if es != [] {
      var h := es[0];
      ForwardNewest(v, es, e);
      forall x | x in es[1..] ensures h.key.user <= x.key.user {
        var i :| 0 < i < |es| && es[i] == x;
        assert Before(false, es[0].key, es[i].key);
      }
      ForwardShows(v, es[1..], if !InView(v, h) || v.allVersions || last == Some(h.key.user) then last else Some(h.key.user), e);
    }
  }

  lemma ForwardNewest(v: View, es: seq<Entry>, e: Entry)
    requires Ordered(false, es) && es != []
    ensures e in es <==> e == es[0] || e in es[1..]
    ensures e in es[1..] ==> e != es[0]
    ensures e in es[1..] ==>
              (IsNewest(v, es, e) <==> IsNewest(v, es[1..], e) && !(InView(v, es[0]) && es[0].key.user == e.key.user))
    ensures IsNewest(v, es, es[0])
  {
  }

  lemma {:induction false} BackwardShows(v: View, es: seq<Entry>, e: Entry)
    requires Ordered(true, es)
    ensures e in Backward(v, es) <==> Shown(v, es, e)
  {
    if es != [] {
      BackwardNewest(v, es, e);
      BackwardShows(v, es[1..], e);
    }
  }

  lemma BackwardNewest(v: View, es: seq<Entry>, e: Entry)
    requires Ordered(true, es) && es != []
    ensures e in es <==> e == es[0] || e in es[1..]
    ensures e in es[1..] ==> e != es[0] && (IsNewest(v, es, e) <==> IsNewest(v, es[1..], e))
    ensures InView(v, es[0]) ==> (IsNewest(v, es, es[0]) <==> !Overtaken(v, es))
  {
  }

  lemma {:induction false} ForwardOrdered(v: View, es: seq<Entry>, last: Option<int>)
    requires Ordered(false, es)
    ensures Ordered(false, Forward(v, es, last))
    ensures forall e :: e in Forward(v, es, last) ==> e in es
  {
    if es != [] {
      forall x | x in es[1..] ensures Before(false, es[0].key, x.key) && x in es {
        var i :| 0 < i < |es| && es[i] == x;
      }
      ForwardOrdered(v, es[1..], last);
      ForwardOrdered(v, es[1..], Some(es[0].key.user));
    }
  }

  lemma {:induction false} BackwardOrdered(v: View, es: seq<Entry>)
    requires Ordered(true, es)
    ensures Ordered(true, Backward(v, es))
    ensures forall e :: e in Backward(v, es) ==> e in es
  {
    if es != [] {
      forall x | x in es[1..] ensures Before(true, es[0].key, x.key) && x in es {
        var i :| 0 < i < |es| && es[i] == x;
      }
      BackwardOrdered(v, es[1..]);
    }
  }

  /** Going backward yields exactly the reverse of going forward. */
  lemma BackwardIsReverse(v: View, es: seq<Entry>)
    requires Ordered(false, es)
    ensures Backward(v, Flip(es)) == Flip(Forward(v, es, None))
  {
    var forth := Forward(v, es, None);
    FlipOrdered(false, es);
    FlipMembers(es);
    BackwardOrdered(v, Flip(es));
    ForwardOrdered(v, es, None);
    FlipOrdered(false, forth);
    FlipMembers(forth);
    forall e ensures e in Backward(v, Flip(es)) <==> e in Flip(forth) {
      BackwardShows(v, Flip(es), e);
      ForwardShows(v, es, None, e);
    }
    UnionIsUnique(true, Backward(v, Flip(es)), Flip(forth));
  }

  // ---------------------------------------------------------------- the iterator

  /** `item` is the current item, `data` the items read ahead; `readKeys` are the keys given to addReadKey. */
  class TxnIterator {
    const v: View
    const update: bool
    const iitr: Iter
    var item: Option<Entry>
    var data: seq<Entry>
    var lastKey: Option<int>
    var readKeys: seq<int>

    constructor (iitr: Iter, v: View, update: bool)
      requires Wired(iitr) && Reverse(iitr) == v.reverse
      ensures this.iitr == iitr && this.v == v && this.update == update && this !in Repr(iitr)
      ensures data == [] && item == None && readKeys == []
    {
      this.iitr, this.v, this.update, item, data, lastKey, readKeys := iitr, v, update, None, [], None, [];
    }

    ghost predicate Valid()
      reads this, Repr(iitr)
    {
      && Wired(iitr) && this !in Repr(iitr) && Reverse(iitr) == v.reverse && Ready(iitr)
      && (item.None? ==> data == [])
    }

    /** What is ahead of the cursor with the prefix. */
    ghost function Ahead(): seq<Entry>
      requires Valid()
      reads this, Repr(iitr)
    {
      Within(v, Rest(iitr))
    }

    /** The items still to come, the current one first. */
    ghost function Coming(): seq<Entry>
      requires Valid()
      reads this, Repr(iitr)
    {
      Held(item) + data + Items(v, Ahead(), lastKey)
    }

    /** Whether there is another entry to parse. */
    method More() returns (more: bool)
      requires Valid()
      ensures more <==> Rest(iitr) != [] && HasPrefix(v, Rest(iitr)[0].key.user)
      ensures !more ==> Ahead() == []
    {
      hide Wired, Ready, Rest, Reverse, HasPrefix;
      more := IsValid(iitr);
      if more {
        var e := Current(iitr);
        more := HasPrefix(v, e.key.user);
      }
    }

    /** One step of the stream: true if an item was pushed. `goto FILL` is the loop. */
    method ParseItem() returns (pushed: bool)
      requires Valid() && Rest(iitr) != [] && HasPrefix(v, Rest(iitr)[0].key.user)
      modifies this, Repr(iitr)
      ensures Valid() && Coming() == old(Coming()) && |Rest(iitr)| < |old(Rest(iitr))| && readKeys == old(readKeys)
      ensures pushed ==> item.Some? && |Held(item)| + |data| == |Held(old(item))| + |old(data)| + 1
      ensures !pushed ==> item == old(item) && data == old(data)
    {
      hide Wired, Ready, Rest, Reverse, Backward, Forward, Within, HasPrefix;
      WithinStep(v, Rest(iitr));
      ItemsStep(v, Ahead(), lastKey);
      var e := Current(iitr);
      if e.key.user in v.hidden {
        Next(iitr);
        return false;
      }
      if e.key.ts > v.readTs || (v.sinceTs > 0 && e.key.ts <= v.sinceTs) {
        Next(iitr);
        return false;
      }
      if v.allVersions {
        Next(iitr);
        SetItem(e);
        return true;
      }
      if !v.reverse {
        if lastKey == Some(e.key.user) {
          Next(iitr);
          return false;
        }
        lastKey := Some(e.key.user);
      }
      pushed := Fill();
    }

    method Fill() returns (pushed: bool)
      requires Valid() && Rest(iitr) != [] && HasPrefix(v, Rest(iitr)[0].key.user) && Ahead() != []
      requires !v.allVersions && InView(v, Rest(iitr)[0]) && (!v.reverse ==> lastKey == Some(Rest(iitr)[0].key.user))
      modifies this, Repr(iitr)
      ensures Valid() && lastKey == old(lastKey) && |Rest(iitr)| < |old(Rest(iitr))| && readKeys == old(readKeys)
      ensures pushed ==> item.Some? && |Held(item)| + |data| == |Held(old(item))| + |old(data)| + 1
      ensures !pushed ==> item == old(item) && data == old(data)
      ensures Coming() == Held(old(item)) + old(data) + old(Filled(v, Ahead(), lastKey))
    {
      hide Wired, Ready, Rest, Reverse, Filled, Items, InView, Within, HasPrefix;
      ghost var todo := Filled(v, Ahead(), lastKey);
      var again := true;
      pushed := false;
      while again
        invariant Valid() && lastKey == old(lastKey) && readKeys == old(readKeys)
        invariant |Rest(iitr)| <= |old(Rest(iitr))| && (!again ==> |Rest(iitr)| < |old(Rest(iitr))|)
        invariant again ==> Rest(iitr) != [] && HasPrefix(v, Rest(iitr)[0].key.user) && InView(v, Rest(iitr)[0])
        invariant again ==> Ahead() != [] && Filled(v, Ahead(), lastKey) == todo
        invariant again || !pushed ==> item == old(item) && data == old(data)
        invariant pushed ==> !again && item.Some? && |Held(item)| + |data| == |Held(old(item))| + |old(data)| + 1
        invariant !again ==> Coming() == Held(old(item)) + old(data) + todo
        decreases |Rest(iitr)|, again
      {
        again, pushed := Candidate();
      }
    }

    /** The entry at hand: deleted, overtaken by the next one, or the item. */
    method Candidate() returns (again: bool, pushed: bool)
      requires Valid() && Rest(iitr) != [] && HasPrefix(v, Rest(iitr)[0].key.user) && Ahead() != []
      requires !v.allVersions && InView(v, Rest(iitr)[0])
      modifies this, Repr(iitr)
      ensures Valid() && lastKey == old(lastKey) && |Rest(iitr)| < |old(Rest(iitr))| && readKeys == old(readKeys)
      ensures again || !pushed ==> item == old(item) && data == old(data)
      ensures again ==> Rest(iitr) != [] && HasPrefix(v, Rest(iitr)[0].key.user) && InView(v, Rest(iitr)[0])
      ensures again ==> Ahead() != [] && Filled(v, Ahead(), lastKey) == old(Filled(v, Ahead(), lastKey))
      ensures !again ==> Coming() == Held(old(item)) + old(data) + old(Filled(v, Ahead(), lastKey))
      ensures pushed ==> item.Some? && |Held(item)| + |data| == |Held(old(item))| + |old(data)| + 1
    {
      hide Wired, Ready, Rest, Reverse, Filled, Items, Ordered, Within, Held, HasPrefix, IsDeletedOrExpired;
      RestOrdered(iitr);
      WithinStep(v, Rest(iitr));
      CandidateStep(v, Rest(iitr), lastKey);
      var e := Current(iitr);
      Next(iitr);
      if IsDeletedOrExpired(e.vs, v.now) {
        return false, false;
      }
      var more := IsValid(iitr);
      if v.reverse && more {
        var next := Current(iitr);
        if next.key.ts <= v.readTs && next.key.user == e.key.user {
          return true, false;
        }
      }
      SetItem(e);
      return false, true;
    }

    method Prefetch(prefetchSize: int)
      requires Valid() && data == []
      modifies this, Repr(iitr)
      ensures Valid() && Coming() == old(Items(v, Ahead(), lastKey)) && (item.None? ==> Coming() == []) && readKeys == old(readKeys)
      ensures var size, held := if prefetchSize > 1 then prefetchSize else 2, |Held(item)| + |data|;
              held <= size && (held < size ==> Ahead() == [])
    {
      hide Wired, Ready, Rest, Reverse, Forward, Backward, Within, HasPrefix;
      var size := if prefetchSize > 1 then prefetchSize else 2;
      var count := 0;
      item := None;
      var more := More();
      while more && count < size
        invariant Valid() && Coming() == old(Items(v, Ahead(), lastKey)) && readKeys == old(readKeys)
        invariant more == (Rest(iitr) != [] && HasPrefix(v, Rest(iitr)[0].key.user)) && (!more ==> Ahead() == [])
        invariant count == |Held(item)| + |data| <= size && (count > 0 ==> item.Some?)
        decreases |Rest(iitr)|
      {
        var pushed := ParseItem();
        if pushed {
          count := count + 1;
        }
        more := More();
      }
      ItemsEnd(v, lastKey);
    }

    /** Next: the first item read ahead becomes current, and one more is read. */
    method NextItem()
      requires Valid() && item.Some?
      modifies this, Repr(iitr)
      ensures Valid() && Coming() == old(Coming())[1..] && (item.None? ==> Coming() == []) && readKeys == old(readKeys)
    {
      hide Wired, Ready, Rest, Reverse, Items, Within, HasPrefix, Held;
      Popped(item, data, Items(v, Ahead(), lastKey));
      ghost var want := Coming()[1..];
      if data == [] {
        item := None;
      } else {
        item, data := Some(data[0]), data[1..];
      }
      var more := More();
      var pushed := false;
      while more && !pushed
        invariant Valid() && Coming() == want && readKeys == old(readKeys)
        invariant more == (Rest(iitr) != [] && HasPrefix(v, Rest(iitr)[0].key.user)) && (!more ==> Ahead() == [])
        invariant pushed ==> item.Some?
        decreases |Rest(iitr)|
      {
        pushed := ParseItem();
        more := More();
      }
      ItemsEnd(v, lastKey);
      if item.None? { NothingHeld(Items(v, Ahead(), lastKey)); }
    }

    method AddReadKey(key: int)
      modifies `readKeys
      ensures readKeys == if update then old(readKeys) + [key] else old(readKeys)
    {
      if update {
        readKeys := readKeys + [key];
      }
    }

    /** Seek, and Rewind when there is no key; then the prefix is the key, if there is one. */
    method SeekItem(key: Option<int>, prefetchSize: int)
      requires Wired(iitr) && this !in Repr(iitr) && Reverse(iitr) == v.reverse
      modifies this, Repr(iitr)
      ensures Valid() && Coming() == Items(v, Reached(v, All(iitr), key), None) && (item.None? ==> Coming() == [])
      ensures readKeys == if key.Some? && update then old(readKeys) + [key.value] else old(readKeys)
    {
      hide Wired, Ready, Rest, Reverse, Forward, Backward, All, From, Within;
      if key.Some? {
        AddReadKey(key.value);
      }
      data := [];
      lastKey := None;
      var k := key;
      if k.None? && v.prefix.Some? {
        k := Some(v.prefix.value.lo);
      }
      if k.None? {
        Rewind(iitr);
      } else {
        Seek(iitr, SeekKey(v, k.value));
      }
      Prefetch(prefetchSize);
    }

    /** The loop of a caller: everything from Rewind on, as long as the iterator is valid. Every item
        looked at is recorded as read. */
    method Iterate(prefetchSize: int) returns (items: seq<Entry>)
      requires Wired(iitr) && this !in Repr(iitr) && Reverse(iitr) == v.reverse
      modifies this, Repr(iitr)
      ensures items == Iterated(v, All(iitr), None)
      ensures readKeys == if update then old(readKeys) + KeysOf(items) else old(readKeys)
    {
      hide Wired, Ready, Rest, Reverse, Forward, Backward, All, Items, Within, Reached, Fits, UpTo, KeysOf;
      items := [];
      SeekItem(None, prefetchSize);
      ghost var all := UpTo(v, Coming());
      NoKeys();
      while item.Some? && Fits(v, item.value.key.user)
        invariant Valid() && all == items + UpTo(v, Coming()) && (item.None? ==> Coming() == [])
        invariant readKeys == if update then old(readKeys) + KeysOf(items) else old(readKeys)
        decreases |Coming()|
      {
        assert Coming()[0] == item.value;
        UpToStep(v, Coming(), items);
        KeysMore(items, item.value);
        AddReadKey(item.value.key.user);
        items := items + [item.value];
        NextItem();
      }
      assert item.Some? ==> Coming()[0] == item.value;
      UpToEnds(v, Coming());
    }

    method SetItem(e: Entry)
      requires Valid()
      modifies `item, `data
      ensures Valid() && item.Some? && |Held(item)| + |data| == |Held(old(item))| + |old(data)| + 1
      ensures Coming() == Held(old(item)) + old(data) + [e] + Items(v, Ahead(), lastKey)
    {
      if item.None? {
        item := Some(e);
      } else {
        data := data + [e];
      }
    }
  }

  function KeysOf(es: seq<Entry>): seq<int> {
    seq(|es|, i requires 0 <= i < |es| => es[i].key.user)
  }

  lemma Popped(item: Option<Entry>, data: seq<Entry>, more: seq<Entry>)
    requires item.Some?
    ensures Held(item) + data + more != []
    ensures (Held(item) + data + more)[1..] ==
            if data == [] then Held(None) + [] + more else Held(Some(data[0])) + data[1..] + more
  {
  }

  lemma NothingHeld(more: seq<Entry>)
    requires more == []
    ensures Held(None) + [] + more == []
  {
  }

  lemma NoKeys()
    ensures KeysOf([]) == []
  {
  }

  lemma UpToStep(v: View, es: seq<Entry>, before: seq<Entry>)
    requires es != [] && Fits(v, es[0].key.user)
    ensures before + UpTo(v, es) == before + [es[0]] + UpTo(v, es[1..])
  {
  }

  lemma UpToEnds(v: View, es: seq<Entry>)
    requires es == [] || !Fits(v, es[0].key.user)
    ensures UpTo(v, es) == []
  {
  }

  lemma KeysMore(es: seq<Entry>, e: Entry)
    ensures KeysOf(es + [e]) == KeysOf(es) + [e.key.user]
  {
  }

  /** The key to look for: from the newest version in view forward, from the oldest one backward. */
  function SeekKey(v: View, key: int): Key {
    if v.reverse then Key(key, 0) else Key(key, v.readTs)
  }

  /** The entries that Seek leaves ahead. */
  function Reached(v: View, all: seq<Entry>, key: Option<int>): seq<Entry> {
    var k := if key.None? && v.prefix.Some? then Some(v.prefix.value.lo) else key;
    Within(v, if k.None? then all else From(v.reverse, all, SeekKey(v, k.value)))
  }

  function Held(item: Option<Entry>): seq<Entry> {
    if item.Some? then [item.value] else []
  }

  /** What is yielded from an entry in view on, once `last` is set to its key. */
  ghost function Filled(v: View, es: seq<Entry>, last: Option<int>): seq<Entry>
    requires es != []
  {
    if v.reverse then Backward(v, es)
    else (if IsDeletedOrExpired(es[0].vs, v.now) then [] else [es[0]]) + Forward(v, es[1..], last)
  }

  lemma ItemsStep(v: View, es: seq<Entry>, last: Option<int>)
    requires es != []
    ensures var e := es[0];
            Items(v, es, last) ==
              if !InView(v, e) then Items(v, es[1..], last)
              else if v.allVersions then [e] + Items(v, es[1..], last)
              else if !v.reverse && last == Some(e.key.user) then Items(v, es[1..], last)
              else Filled(v, es, if v.reverse then last else Some(e.key.user))
  {
  }

  lemma FilledStep(v: View, es: seq<Entry>, last: Option<int>)
    requires es != [] && InView(v, es[0]) && !v.allVersions && Ordered(v.reverse, es)
    ensures Filled(v, es, last) ==
              (if IsDeletedOrExpired(es[0].vs, v.now) || (v.reverse && Overtaken(v, es)) then [] else [es[0]]) + Items(v, es[1..], last)
    ensures v.reverse && Overtaken(v, es) && !IsDeletedOrExpired(es[0].vs, v.now) ==>
              Filled(v, es, last) == Filled(v, es[1..], last) && InView(v, es[1])
  {
  }

  lemma CandidateStep(v: View, es: seq<Entry>, last: Option<int>)
    requires es != [] && HasPrefix(v, es[0].key.user) && InView(v, es[0]) && !v.allVersions && Ordered(v.reverse, es)
    ensures Within(v, es) != []
    ensures !(v.reverse && Overtaken(v, es)) || IsDeletedOrExpired(es[0].vs, v.now) ==>
              Filled(v, Within(v, es), last) ==
              (if IsDeletedOrExpired(es[0].vs, v.now) then [] else [es[0]]) + Items(v, Within(v, es[1..]), last)
    ensures v.reverse && Overtaken(v, es) && !IsDeletedOrExpired(es[0].vs, v.now) ==>
              && Within(v, es[1..]) != [] && HasPrefix(v, es[1].key.user) && InView(v, es[1])
              && Filled(v, Within(v, es), last) == Filled(v, Within(v, es[1..]), last)
  {
    WithinStep(v, es);
    hide Within;
    if v.reverse {
      WithinAll(v, es);
      WithinAll(v, es[1..]);
      FilledStep(v, es, last);
    }
  }

  lemma ItemsEnd(v: View, last: Option<int>)
    ensures Items(v, [], last) == []
  {
  }

  // ---------------------------------------------------------------- the snapshot

  lemma {:induction false} BestIsEarliest(lists: seq<seq<Entry>>, user: int, t: nat) returns (i: nat)
    requires Best(Concat(lists), user, t).Some?
    ensures i < |lists| && Earliest(lists, i, Best(Concat(lists), user, t).value)
  {
    var n := |lists| - 1;
    var before, last := Concat(lists[..n]), lists[n];
    BestConcat(before, last, user, t);
    BestIsGreatest(before, user, t);
    BestIsGreatest(last, user, t);
    if Best(Concat(lists), user, t) == Best(before, user, t) {
      i := BestIsEarliest(lists[..n], user, t);
      assert forall j :: 0 <= j <= i ==> lists[..n][j] == lists[j];
    } else {
      i := n;
      var b := Best(last, user, t).value;
      forall j | 0 <= j < n ensures !HasKey(lists[j], b.key) {
        if h :| 0 <= h < |lists[j]| && lists[j][h].key == b.key {
          ConcatMember(lists[..n], lists[j][h]);
          assert lists[j][h] in lists[..n][j];
          assert Matches(lists[j][h], user, t);
          assert false;
        }
      }
    }
  }

  /** Reading from the merged stream is reading from its sources, the first one winning ties. */
  lemma UnionBest(reverse: bool, lists: seq<seq<Entry>>, all: seq<Entry>, user: int, t: nat)
    requires FromEarliest(reverse, lists, all)
    ensures Best(all, user, t) == Best(Concat(lists), user, t)
  {
    var b := Best(Concat(lists), user, t);
    BestIsGreatest(Concat(lists), user, t);
    forall e | e in all ensures e in Concat(lists) {
      var i :| 0 <= i < |lists| && Earliest(lists, i, e);
      ConcatMember(lists, e);
    }
    BestIsGreatest(all, user, t);
    if b.Some? {
      var i := BestIsEarliest(lists, user, t);
      assert b.value in all;
      forall x | x in all && Matches(x, user, t) && x != b.value ensures x.key.ts < b.value.key.ts {
        SameKeyOnce(reverse, all, x, b.value);
      }
      BestIs(all, user, t, b.value);
    }
  }

  lemma SameKeyOnce(reverse: bool, all: seq<Entry>, x: Entry, y: Entry)
    requires Ordered(reverse, all) && x in all && y in all && x != y
    ensures x.key != y.key
  {
  }

  /** The pending writes of a transaction as an input of the merge: in order, at its read timestamp. */
  ghost predicate PendingOf(v: View, writes: map<int, ValueStruct>, pending: seq<Entry>) {
    && Ordered(v.reverse, pending)
    && forall e :: e in pending <==> e.key.user in writes && e == Entry(Key(e.key.user, v.readTs), writes[e.key.user])
  }

  /** What Get returns inside the transaction: its own write, or the newest version it may see. */
  function Seen(v: View, writes: map<int, ValueStruct>, tables: seq<seq<Entry>>, user: int): Option<Entry> {
    if user in writes then Some(Entry(Key(user, v.readTs), writes[user])) else Best(Concat(tables), user, v.readTs)
  }

  lemma PendingWins(v: View, writes: map<int, ValueStruct>, pending: seq<Entry>, tables: seq<seq<Entry>>, user: int)
    requires PendingOf(v, writes, pending)
    ensures Best(Concat([pending] + tables), user, v.readTs) == Seen(v, writes, tables, user)
  {
    ConcatHead(pending, tables);
    BestConcat(pending, Concat(tables), user, v.readTs);
    BestIsGreatest(pending, user, v.readTs);
    BestIsGreatest(Concat(tables), user, v.readTs);
    if user in writes {
      assert Entry(Key(user, v.readTs), writes[user]) in pending;
    }
  }

  /** What Seek leaves ahead when it starts at the prefix. */
  predicate AtPrefix(v: View, e: Entry) {
    v.prefix.Some? ==>
      if v.reverse then e.key.user <= v.prefix.value.lo
      else v.prefix.value.lo <= e.key.user <= v.prefix.value.hi && (e.key.user == v.prefix.value.lo ==> e.key.ts <= v.readTs)
  }

  lemma ReachedIs(v: View, all: seq<Entry>)
    requires Ordered(v.reverse, all)
    ensures Ordered(v.reverse, Reached(v, all, None))
    ensures forall e :: e in Reached(v, all, None) <==> e in all && AtPrefix(v, e)
  {
    if v.prefix.None? {
      WithinAll(v, all);
    } else {
      var part := From(v.reverse, all, SeekKey(v, v.prefix.value.lo));
      FromMembers(v.reverse, all, SeekKey(v, v.prefix.value.lo));
      if v.reverse { WithinAll(v, part); } else { WithinIs(v, part); }
      hide Within, From;
    }
  }

  lemma {:induction false} WithinIs(v: View, es: seq<Entry>)
    requires !v.reverse && v.prefix.Some? && Ordered(false, es)
    requires forall e :: e in es ==> v.prefix.value.lo <= e.key.user
    ensures Ordered(false, Within(v, es))
    ensures forall e :: e in Within(v, es) <==> e in es && e.key.user <= v.prefix.value.hi
  {
    if es != [] {
      assert es == [es[0]] + es[1..];
      forall x | x in es[1..] ensures Before(false, es[0].key, x.key) {
        var i :| 0 < i < |es| && es[i] == x;
      }
      if HasPrefix(v, es[0].key.user) {
        WithinIs(v, es[1..]);
        HeadFirst(false, es[0], Within(v, es[1..]));
      }
    }
  }

  lemma HeadFirst(reverse: bool, e: Entry, es: seq<Entry>)
    requires Ordered(reverse, es) && forall x :: x in es ==> Before(reverse, e.key, x.key)
    ensures Ordered(reverse, [e] + es)
  {
    hide Before;
    var all := [e] + es;
    forall i, j | 0 <= i < j < |all| ensures Before(reverse, all[i].key, all[j].key) {
      assert all[j] == es[j - 1];
      if i > 0 { assert all[i] == es[i - 1]; }
    }
  }

  /** Of a key that is there, all versions in view are. */
  lemma PartShows(v: View, all: seq<Entry>, part: seq<Entry>, e: Entry)
    requires forall x :: x in part <==> x in all && AtPrefix(v, x)
    ensures Shown(v, part, e) <==> Shown(v, all, e) && e in part
  {
  }

  /** The items before the first that does not fit are all that fit. */
  lemma {:induction false} UpToIs(v: View, es: seq<Entry>)
    requires Ordered(v.reverse, es) && forall e :: e in es ==> AtPrefix(v, e)
    requires v.prefix.Some? ==> v.prefix.value.lo <= v.prefix.value.hi
    ensures Ordered(v.reverse, UpTo(v, es))
    ensures forall e :: e in UpTo(v, es) <==> e in es && Covers(v, e.key.user)
  {
    if es != [] {
      assert es == [es[0]] + es[1..];
      forall x | x in es[1..] ensures Before(v.reverse, es[0].key, x.key) {
        var i :| 0 < i < |es| && es[i] == x;
      }
      forall e | e in es ensures Fits(v, e.key.user) <==> Covers(v, e.key.user) {
        assert AtPrefix(v, e);
      }
      if Fits(v, es[0].key.user) {
        UpToIs(v, es[1..]);
        HeadFirst(v.reverse, es[0], UpTo(v, es[1..]));
      } else {
        forall e | e in es[1..] ensures !Fits(v, e.key.user) {
          assert AtPrefix(v, e) && AtPrefix(v, es[0]) && Before(v.reverse, es[0].key, e.key);
        }
      }
    }
  }

  /** The user keys that an iteration from Rewind is about. In reverse, Rewind with a prefix starts at
      the prefix itself, below all the keys that go on after it. */
  predicate Covers(v: View, user: int) {
    v.prefix.Some? ==>
      if v.reverse || v.prefixIsKey then user == v.prefix.value.lo else v.prefix.value.lo <= user <= v.prefix.value.hi
  }

  /** What a caller receives that goes on from Rewind, or from Seek, until the iterator is not valid. */
  function Iterated(v: View, all: seq<Entry>, key: Option<int>): seq<Entry> {
    UpTo(v, Items(v, Reached(v, all, key), None))
  }

  lemma ItemsOrdered(v: View, es: seq<Entry>)
    requires Ordered(v.reverse, es)
    ensures Ordered(v.reverse, Items(v, es, None))
    ensures forall e :: e in Items(v, es, None) <==> Shown(v, es, e)
  {
    if v.reverse { BackwardOrdered(v, es); } else { ForwardOrdered(v, es, None); }
    forall e ensures e in Items(v, es, None) <==> Shown(v, es, e) {
      if v.reverse { BackwardShows(v, es, e); } else { ForwardShows(v, es, None, e); }
    }
  }

  /** From Rewind: all that is shown of the keys covered. */
  lemma RewindShows(v: View, all: seq<Entry>)
    requires Ordered(v.reverse, all) && (v.prefix.Some? ==> v.prefix.value.lo <= v.prefix.value.hi)
    ensures Ordered(v.reverse, Iterated(v, all, None))
    ensures forall e :: e in Iterated(v, all, None) <==> Shown(v, all, e) && Covers(v, e.key.user)
  {
    var part := Reached(v, all, None);
    ReachedIs(v, all);
    ItemsOrdered(v, part);
    hide Reached, Items;
    forall e | e in Items(v, part, None) ensures AtPrefix(v, e) {
      assert e in part;
    }
    UpToIs(v, Items(v, part, None));
    forall e ensures e in Iterated(v, all, None) <==> Shown(v, all, e) && Covers(v, e.key.user) {
      PartShows(v, all, part, e);
      CoveredAhead(v, e);
      hide UpTo, Shown, AtPrefix, Covers;
    }
  }

  /** What is covered and in view is ahead after Rewind. */
  lemma CoveredAhead(v: View, e: Entry)
    requires v.prefix.Some? ==> v.prefix.value.lo <= v.prefix.value.hi
    ensures Covers(v, e.key.user) && InView(v, e) ==> AtPrefix(v, e)
  {
  }

  /** Iterating from Rewind yields, in key order or the reverse of it, exactly what Get would return
      for each key it covers: the newest version at or below the read timestamp, deleted and expired
      ones left out, the transaction's own pending writes first of all; with SinceTs, if it is newer. */
  lemma IterationIsSnapshot(v: View, writes: map<int, ValueStruct>, pending: seq<Entry>, tables: seq<seq<Entry>>, all: seq<Entry>)
    requires PendingOf(v, writes, pending) && FromEarliest(v.reverse, [pending] + tables, all)
    requires !v.allVersions && (v.prefix.Some? ==> v.prefix.value.lo <= v.prefix.value.hi)
    ensures var items := Iterated(v, all, None);
            && Ordered(v.reverse, items)
            && forall e :: e in items <==>
                 && Covers(v, e.key.user) && e.key.user !in v.hidden
                 && Seen(v, writes, tables, e.key.user) == Some(e) && (v.sinceTs > 0 ==> e.key.ts > v.sinceTs)
                 && !e.vs.meta.delete && (e.vs.expiresAt == 0 || e.vs.expiresAt > v.now)
  {
    RewindShows(v, all);
    forall e ensures e in Iterated(v, all, None) <==>
        && Covers(v, e.key.user) && e.key.user !in v.hidden
        && Seen(v, writes, tables, e.key.user) == Some(e) && (v.sinceTs > 0 ==> e.key.ts > v.sinceTs)
        && !e.vs.meta.delete && (e.vs.expiresAt == 0 || e.vs.expiresAt > v.now)
    {
      UnionBest(v.reverse, [pending] + tables, all, e.key.user, v.readTs);
      PendingWins(v, writes, pending, tables, e.key.user);
      if e.key.user !in v.hidden { NewestIsBest(v, all, e); }
      hide Seen, Iterated, Best, FromEarliest, PendingOf, IsNewest;
    }
  }

  lemma NewestIsBest(v: View, all: seq<Entry>, e: Entry)
    requires Ordered(v.reverse, all) && e.key.user !in v.hidden
    ensures Best(all, e.key.user, v.readTs) == Some(e) && (v.sinceTs > 0 ==> e.key.ts > v.sinceTs) <==>
            e in all && InView(v, e) && IsNewest(v, all, e)
  {
    BestIsGreatest(all, e.key.user, v.readTs);
    if e in all && InView(v, e) && IsNewest(v, all, e) {
      forall x | x in all && Matches(x, e.key.user, v.readTs) && x != e ensures x.key.ts < e.key.ts {
        SameKeyOnce(v.reverse, all, x, e);
      }
      BestIs(all, e.key.user, v.readTs, e);
    }
  }

  /** Without a prefix, Seek yields what Rewind yields from the key on. */
  lemma SeekIsSuffix(v: View, all: seq<Entry>, key: int, e: Entry)
    requires Ordered(v.reverse, all) && v.prefix.None?
    ensures e in Items(v, Reached(v, all, Some(key)), None) <==>
              e in Items(v, Reached(v, all, None), None) && (if v.reverse then e.key.user <= key else key <= e.key.user)
  {
    var k := SeekKey(v, key);
    var part := From(v.reverse, all, k);
    FromMembers(v.reverse, all, k);
    WithinAll(v, all);
    WithinAll(v, part);
    hide Within, From;
    if v.reverse {
      BackwardShows(v, all, e);
      BackwardShows(v, part, e);
    } else {
      ForwardShows(v, all, None, e);
      ForwardShows(v, part, None, e);
    }
  }

  // ---------------------------------------------------------------- a prefix backwards

  /** Iterating from Rewind in reverse is the iteration forward, reversed, exactly when no key that goes
      on after the prefix is shown. */
  lemma RewindReversedIff(v: View, all: seq<Entry>)
    requires !v.reverse && Ordered(false, all) && (v.prefix.Some? ==> v.prefix.value.lo <= v.prefix.value.hi)
    ensures Iterated(v.(reverse := true), Flip(all), None) == Flip(Iterated(v, all, None)) <==>
            (v.prefix.Some? && !v.prefixIsKey ==>
               forall e :: Shown(v, all, e) ==> !(v.prefix.value.lo < e.key.user <= v.prefix.value.hi))
  {
    var back := v.(reverse := true);
    var forth, rev := Iterated(v, all, None), Iterated(back, Flip(all), None);
    FlipOrdered(false, all);
    RewindShows(v, all);
    RewindShows(back, Flip(all));
    forall e ensures Shown(back, Flip(all), e) <==> Shown(v, all, e) {
      FlipShows(v, all, e);
    }
    FlipOrdered(false, forth);
    FlipMembers(forth);
    hide Shown, Iterated, Ordered;
    if forall e :: Shown(v, all, e) ==> (Covers(back, e.key.user) <==> Covers(v, e.key.user)) {
      UnionIsUnique(true, rev, Flip(forth));
    }
  }

  lemma FlipShows(v: View, all: seq<Entry>, e: Entry)
    ensures Shown(v.(reverse := true), Flip(all), e) <==> Shown(v, all, e)
  {
    FlipMembers(all);
  }

  /** The prefix itself and a key that goes on after it, both alive: forward both, in reverse one. */
  lemma RewindMissesKeys()
    ensures
      var live := ValueStruct(Meta(false, false, false, false), 0, []);
      var all := [Entry(Key(1, 5), live), Entry(Key(2, 5), live)];
      var v := View(9, 0, false, false, 0, {}, Some(Prefix(1, 2)), false);
      Ordered(false, all) && Iterated(v, all, None) == all && Iterated(v.(reverse := true), Flip(all), None) == [all[0]]
  {
    var live := ValueStruct(Meta(false, false, false, false), 0, []);
    var all := [Entry(Key(1, 5), live), Entry(Key(2, 5), live)];
    var v := View(9, 0, false, false, 0, {}, Some(Prefix(1, 2)), false);
    var back := v.(reverse := true);
    FlipOrdered(false, all);
    RewindShows(v, all);
    RewindShows(back, Flip(all));
    forall e ensures Shown(v, all, e) <==> e in all {
    }
    forall e ensures Shown(back, Flip(all), e) <==> e in all {
      FlipShows(v, all, e);
    }
    hide Iterated, Shown;
    UnionIsUnique(false, Iterated(v, all, None), all);
    UnionIsUnique(true, Iterated(back, Flip(all), None), [all[0]]);
  }

  /** The last key that the prefix option lets through. */
  function Top(v: View): int
    requires v.prefix.Some?
  {
    if v.prefixIsKey then v.prefix.value.lo else v.prefix.value.hi
  }

  /** Seek in reverse yields what is shown of the prefix from the key down, unless a key above the
      prefix is shown first; then it yields nothing. */
  lemma SeekBackward(v: View, all: seq<Entry>, key: int)
    requires v.reverse && Ordered(true, all) && v.prefix.Some? && v.prefix.value.lo <= v.prefix.value.hi
    ensures var items, clear := Iterated(v, all, Some(key)), forall x :: Shown(v, all, x) && x.key.user <= key ==> x.key.user <= Top(v);
            && Ordered(true, items)
            && forall e :: e in items <==> clear && Shown(v, all, e) && Fits(v, e.key.user) && e.key.user <= key
  {
    var part := From(true, all, Key(key, 0));
    FromMembers(true, all, Key(key, 0));
    WithinAll(v, part);
    ItemsOrdered(v, part);
    hide Within, From, Items;
    forall e ensures Shown(v, part, e) <==> Shown(v, all, e) && e.key.user <= key {
    }
    UpToTop(v, Items(v, part, None));
    hide Shown, UpTo;
    var clear := forall x :: Shown(v, all, x) && x.key.user <= key ==> x.key.user <= Top(v);
    assert clear <==> forall x :: x in Items(v, part, None) ==> x.key.user <= Top(v);
  }

  lemma {:induction false} UpToTop(v: View, es: seq<Entry>)
    requires v.reverse && Ordered(true, es) && v.prefix.Some? && v.prefix.value.lo <= v.prefix.value.hi
    ensures Ordered(true, UpTo(v, es))
    ensures forall e :: e in UpTo(v, es) <==> (forall x :: x in es ==> x.key.user <= Top(v)) && e in es && Fits(v, e.key.user)
  {
    if es != [] {
      assert es == [es[0]] + es[1..];
      forall x | x in es[1..] ensures Before(true, es[0].key, x.key) {
        var i :| 0 < i < |es| && es[i] == x;
      }
      assert es[0] in es;
      if Fits(v, es[0].key.user) {
        UpToTop(v, es[1..]);
        HeadFirst(true, es[0], UpTo(v, es[1..]));
      }
    }
  }

  /** So Seek from above the prefix is the way to have a prefix backwards. */
  lemma SeekBackwardIff(v: View, all: seq<Entry>, key: int)
    requires !v.reverse && Ordered(false, all) && v.prefix.Some? && v.prefix.value.lo <= v.prefix.value.hi && key >= Top(v)
    ensures Iterated(v.(reverse := true), Flip(all), Some(key)) == Flip(Iterated(v, all, None)) <==>
            Iterated(v, all, None) == [] || forall x :: Shown(v, all, x) ==> !(Top(v) < x.key.user <= key)
  {
    var back := v.(reverse := true);
    var forth, rev := Iterated(v, all, None), Iterated(back, Flip(all), Some(key));
    FlipOrdered(false, all);
    RewindShows(v, all);
    SeekBackward(back, Flip(all), key);
    forall e ensures Shown(back, Flip(all), e) <==> Shown(v, all, e) {
      FlipShows(v, all, e);
    }
    hide Shown, Iterated, Ordered;
    ReversedIff(forth, rev, forall x :: Shown(v, all, x) ==> !(Top(v) < x.key.user <= key));
  }

  lemma ReversedIff(forth: seq<Entry>, rev: seq<Entry>, p: bool)
    requires Ordered(false, forth) && Ordered(true, rev) && forall e :: e in rev <==> p && e in forth
    ensures rev == Flip(forth) <==> forth == [] || p
  {
    FlipOrdered(false, forth);
    FlipMembers(forth);
    hide Ordered;
    if p {
      UnionIsUnique(true, rev, Flip(forth));
    } else {
      FirstIn(rev);
    }
  }

  /** Seek forward yields what is shown of the prefix from the key on, unless there is anything, shown or
      not, from the key on that comes before the prefix. */
  lemma SeekForward(v: View, all: seq<Entry>, key: int)
    requires !v.reverse && Ordered(false, all) && v.prefix.Some? && v.prefix.value.lo <= v.prefix.value.hi
    ensures var items := Iterated(v, all, Some(key));
            var clear := forall x :: x in all && LessEq(Key(key, v.readTs), x.key) ==> v.prefix.value.lo <= x.key.user;
            && Ordered(false, items)
            && forall e :: e in items <==> clear && Shown(v, all, e) && Fits(v, e.key.user) && key <= e.key.user
  {
    var k := Key(key, v.readTs);
    var part := From(false, all, k);
    FromMembers(false, all, k);
    hide From;
    forall x | x in all ensures LessEq(k, x.key) <==> x in part {
    }
    if forall x :: x in part ==> v.prefix.value.lo <= x.key.user {
      WithinIs(v, part);
      var within := Within(v, part);
      ItemsOrdered(v, within);
      forall e | e in Items(v, within, None) ensures v.prefix.value.lo <= e.key.user <= v.prefix.value.hi {
        assert e in within;
      }
      UpToPrefix(v, Items(v, within, None));
      hide Within, Items, UpTo;
      forall e ensures Shown(v, within, e) <==> Shown(v, all, e) && key <= e.key.user <= v.prefix.value.hi {
      }
    } else {
      BeforePrefix(v, part);
    }
  }

  lemma UpToPrefix(v: View, es: seq<Entry>)
    requires !v.reverse && Ordered(false, es) && v.prefix.Some?
    requires forall e :: e in es ==> v.prefix.value.lo <= e.key.user <= v.prefix.value.hi
    ensures Ordered(false, UpTo(v, es)) && forall e :: e in UpTo(v, es) <==> e in es && Fits(v, e.key.user)
  {
    if es != [] {
      assert es == [es[0]] + es[1..];
      forall x | x in es[1..] ensures Before(false, es[0].key, x.key) {
        var i :| 0 < i < |es| && es[i] == x;
      }
      if Fits(v, es[0].key.user) {
        UpToPrefix(v, es[1..]);
        HeadFirst(false, es[0], UpTo(v, es[1..]));
      }
    }
  }

  lemma BeforePrefix(v: View, es: seq<Entry>)
    requires !v.reverse && Ordered(false, es) && v.prefix.Some? && exists x :: x in es && x.key.user < v.prefix.value.lo
    ensures Within(v, es) == []
  {
    var x :| x in es && x.key.user < v.prefix.value.lo;
    var i :| 0 <= i < |es| && es[i] == x;
    assert i > 0 ==> Before(false, es[0].key, es[i].key);
  }

  lemma {:induction false} FromMembers(reverse: bool, es: seq<Entry>, k: Key)
    requires Ordered(reverse, es)
    ensures Ordered(reverse, From(reverse, es, k))
    ensures forall e :: e in From(reverse, es, k) <==> e in es && !Before(reverse, e.key, k)
  {
    if es != [] {
      assert es == [es[0]] + es[1..];
      if Before(reverse, es[0].key, k) {
        FromMembers(reverse, es[1..], k);
      } else {
        forall i | 0 <= i < |es| ensures !Before(reverse, es[i].key, k) {
          assert i > 0 ==> Before(reverse, es[0].key, es[i].key);
        }
      }
    }
  }
}
