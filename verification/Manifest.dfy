/** The state that the manifest keeps (manifest.go): which tables there are at which level, and how
    changes and sets of changes alter it. `ManifestFiles` is about the file. */
module Manifests {
  import opened Wrappers
  import opened Sequences

  /** `level` is one byte. */
  datatype TableManifest = TableManifest(level: nat, keyId: nat, compression: nat)

  datatype Change = Create(id: nat, level: nat, keyId: nat, compression: nat) | Delete(id: nat) | Unknown

  /** Manifest: the tables, the ids per level, and the numbers of creations and deletions. */
  datatype Build = Build(tables: map<nat, TableManifest>, levels: seq<set<nat>>, creations: nat, deletions: nat)

  const EMPTY := Build(map[], [], 0, 0)

  /** `levels` extended to have index `level`. */
  function Padded(levels: seq<set<nat>>, level: nat): (r: seq<set<nat>>)
    ensures |r| == if level < |levels| then |levels| else level + 1
    ensures forall l :: 0 <= l < |r| ==> r[l] == if l < |levels| then levels[l] else {}
  {
    if level < |levels| then levels else levels + seq(level + 1 - |levels|, _ => {})
  }

  /** Every table's level is in the index: deleting it cannot go out of range. */
  predicate Indexed(b: Build) {
    forall id :: id in b.tables ==> b.tables[id].level < 256 && b.tables[id].level < |b.levels|
  }

  /** The index says just what the tables say. */
  ghost predicate Consistent(b: Build) {
    && Indexed(b)
    && forall l, id :: 0 <= l < |b.levels| ==> (id in b.levels[l] <==> id in b.tables && b.tables[id].level == l)
  }

  /** applyManifestChange; None for the errors. The table records the level in one byte, the index has
      it in full. */
  function ApplyChange(b: Build, c: Change): Option<Build> {
    match c
    case Create(id, level, keyId, compression) =>
      if id in b.tables then None
      else
        var levels := Padded(b.levels, level);
        Some(b.(tables := b.tables[id := TableManifest(level % 256, keyId, compression)],
                levels := levels[level := levels[level] + {id}], creations := b.creations + 1))
    case Delete(id) =>
      if id !in b.tables then
        Some(b.(levels := seq(|b.levels|, l requires 0 <= l < |b.levels| => b.levels[l] - {id}), deletions := b.deletions + 1))
      else
        var level := b.tables[id].level;
        Some(b.(tables := b.tables - {id},
                levels := if level < |b.levels| then b.levels[level := b.levels[level] - {id}] else b.levels,
                deletions := b.deletions + 1))
    case Unknown => None
  }

  /** applyChangeSet: the changes up to the first that fails. */
  function ApplySet(b: Build, cs: seq<Change>): (Build, bool) {
    if cs == [] then (b, true)
    else
      var (mid, ok) := ApplySet(b, cs[..|cs| - 1]);
      if !ok then (mid, false)
      else
        var next := ApplyChange(mid, cs[|cs| - 1]);
        if next.None? then (mid, false) else (next.value, true)
  }

  // ---------------------------------------------------------------- what the changes keep

  lemma ChangeKeepsIndexed(b: Build, c: Change)
    requires Indexed(b)
    ensures ApplyChange(b, c).Some? ==> Indexed(ApplyChange(b, c).value)
  {
  }

  lemma {:induction false} SetKeepsIndexed(b: Build, cs: seq<Change>)
    requires Indexed(b)
    ensures Indexed(ApplySet(b, cs).0)
  {
    if cs != [] {
      SetKeepsIndexed(b, cs[..|cs| - 1]);
      ChangeKeepsIndexed(ApplySet(b, cs[..|cs| - 1]).0, cs[|cs| - 1]);
      hide Indexed, ApplyChange;
    }
  }

  /** One change keeps the index right exactly when it does not create a table at level 256 or above:
      the table records the level in one byte, the index has it in full. */
  lemma ChangeKeepsConsistent(b: Build, c: Change)
    requires Consistent(b) && ApplyChange(b, c).Some?
    ensures Consistent(ApplyChange(b, c).value) <==> (c.Create? ==> c.level < 256)
  {
    ChangeKeepsIndexed(b, c);
    var n := ApplyChange(b, c).value;
    if c.Create? && c.level >= 256 {
      assert c.id in n.levels[c.level] && n.tables[c.id].level != c.level;
    } else {
      forall l, id | 0 <= l < |n.levels| ensures id in n.levels[l] <==> id in n.tables && n.tables[id].level == l {
        if l < |b.levels| {
          assert id in b.levels[l] <==> id in b.tables && b.tables[id].level == l;
        } else {
          assert id in b.tables ==> b.tables[id].level < |b.levels|;
        }
      }
    }
  }

  lemma CountsAside(a: Build, b: Build)
    requires Consistent(a) && a.tables == b.tables && a.levels == b.levels
    ensures Consistent(b)
  {
  }

  predicate InRange(cs: seq<Change>) {
    forall i :: 0 <= i < |cs| && cs[i].Create? ==> cs[i].level < 256
  }

  lemma {:induction false} SetKeepsConsistent(b: Build, cs: seq<Change>)
    requires Consistent(b) && InRange(cs)
    ensures Consistent(ApplySet(b, cs).0)
  {
    if cs != [] {
      SetKeepsConsistent(b, cs[..|cs| - 1]);
      var mid := ApplySet(b, cs[..|cs| - 1]).0;
      if ApplyChange(mid, cs[|cs| - 1]).Some? { ChangeKeepsConsistent(mid, cs[|cs| - 1]); }
    }
  }

  /** The index is right after each of the changes. */
  ghost predicate AlwaysConsistent(b: Build, cs: seq<Change>) {
    Consistent(ApplySet(b, cs).0) && (cs == [] || AlwaysConsistent(b, cs[..|cs| - 1]))
  }

  /** For a change set that is applied in full, exactly when the index is right all the way. */
  lemma {:induction false} ConsistentIff(b: Build, cs: seq<Change>)
    requires Consistent(b) && ApplySet(b, cs).1
    ensures AlwaysConsistent(b, cs) <==> InRange(cs)
  {
    if cs != [] {
      var front, last := cs[..|cs| - 1], cs[|cs| - 1];
      assert ApplySet(b, front).1;
      ConsistentIff(b, front);
      if InRange(front) {
        SetKeepsConsistent(b, front);
        ChangeKeepsConsistent(ApplySet(b, front).0, last);
      }
      hide ApplyChange, Consistent;
    }
  }

  /** Levels from 256 on break the index: a table deleted again stays in it. */
  lemma LevelBeyondByte()
    ensures var (b, ok) := ApplySet(EMPTY, [Create(1, 256, 0, 0), Delete(1)]);
            ok && b.tables == map[] && |b.levels| == 257 && 1 in b.levels[256] && !Consistent(b)
  {
  }

  // ---------------------------------------------------------------- what a change set says of the tables

  function Lookup(tables: map<nat, TableManifest>, id: nat): Option<TableManifest> {
    if id in tables then Some(tables[id]) else None
  }

  predicate About(c: Change, id: nat) {
    !c.Unknown? && c.id == id
  }

  /** What table `id` is after the changes: the last one about it decides. */
  function Live(tables: map<nat, TableManifest>, cs: seq<Change>, id: nat): Option<TableManifest> {
    if cs == [] then Lookup(tables, id)
    else
      var last := cs[|cs| - 1];
      if !About(last, id) then Live(tables, cs[..|cs| - 1], id)
      else if last.Create? then Some(TableManifest(last.level % 256, last.keyId, last.compression))
      else None
  }

  /** An unknown operation, or a creation of a table that is there by then. */
  predicate Refused(tables: map<nat, TableManifest>, cs: seq<Change>, i: nat)
    requires i < |cs|
  {
    cs[i].Unknown? || (cs[i].Create? && Live(tables, cs[..i], cs[i].id).Some?)
  }

  /** Change `n` is the first that is refused. */
  predicate FailsAt(tables: map<nat, TableManifest>, cs: seq<Change>, n: nat) {
    n < |cs| && Refused(tables, cs, n) && forall i :: 0 <= i < n ==> !Refused(tables, cs, i)
  }

  predicate NoneRefused(tables: map<nat, TableManifest>, cs: seq<Change>) {
    forall i :: 0 <= i < |cs| ==> !Refused(tables, cs, i)
  }

  lemma ChangeIs(b: Build, c: Change, id: nat)
    ensures ApplyChange(b, c).None? <==> c.Unknown? || (c.Create? && Lookup(b.tables, c.id).Some?)
    ensures ApplyChange(b, c).Some? ==>
              Lookup(ApplyChange(b, c).value.tables, id) ==
              if !About(c, id) then Lookup(b.tables, id)
              else if c.Create? then Some(TableManifest(c.level % 256, c.keyId, c.compression)) else None
  {
  }

  /** A change set is applied in full exactly when no change is refused. The tables it leaves depend on
      nothing but the tables before. */
  lemma {:induction false} SetIs(b: Build, cs: seq<Change>)
    ensures ApplySet(b, cs).1 <==> NoneRefused(b.tables, cs)
    ensures ApplySet(b, cs).1 ==> forall id :: Lookup(ApplySet(b, cs).0.tables, id) == Live(b.tables, cs, id)
  {
    if cs != [] {
      var front, last := cs[..|cs| - 1], cs[|cs| - 1];
      SetIs(b, front);
      RefusedLast(b.tables, cs);
      var mid := ApplySet(b, front).0;
      hide Lookup, ApplyChange, Refused, NoneRefused;
      if !last.Unknown? { ChangeIs(mid, last, last.id); }
      forall id ensures ApplySet(b, cs).1 ==> Lookup(ApplySet(b, cs).0.tables, id) == Live(b.tables, cs, id) {
        ChangeIs(mid, last, id);
      }
    }
  }

  lemma RefusedLast(tables: map<nat, TableManifest>, cs: seq<Change>)
    requires cs != []
    ensures var front, last := cs[..|cs| - 1], cs[|cs| - 1];
            NoneRefused(tables, cs) <==> NoneRefused(tables, front) && !last.Unknown? && (last.Create? ==> Live(tables, front, last.id).None?)
  {
    var front := cs[..|cs| - 1];
    RefusedBefore(tables, cs, |cs| - 1);
    hide Live;
    assert NoneRefused(tables, cs) <==> NoneRefused(tables, front) && !Refused(tables, cs, |cs| - 1);
  }

  lemma RefusedBefore(tables: map<nat, TableManifest>, cs: seq<Change>, n: nat)
    requires n <= |cs|
    ensures forall i :: 0 <= i < n ==> (Refused(tables, cs, i) <==> Refused(tables, cs[..n], i))
  {
    hide Live;
    forall i | 0 <= i < n ensures Refused(tables, cs, i) <==> Refused(tables, cs[..n], i) {
      assert cs[..n][..i] == cs[..i];
    }
  }

  lemma SameOutcome(a: Build, b: Build, cs: seq<Change>)
    requires a.tables == b.tables
    ensures ApplySet(a, cs).1 == ApplySet(b, cs).1
    ensures ApplySet(a, cs).1 ==> ApplySet(a, cs).0.tables == ApplySet(b, cs).0.tables
  {
    SetIs(a, cs);
    SetIs(b, cs);
    hide ApplySet, Refused, Live, NoneRefused;
    if ApplySet(a, cs).1 { SameTables(ApplySet(a, cs).0.tables, ApplySet(b, cs).0.tables); }
  }

  lemma SameTables(s: map<nat, TableManifest>, t: map<nat, TableManifest>)
    requires forall id :: Lookup(s, id) == Lookup(t, id)
    ensures s == t
  {
    forall id ensures id in s <==> id in t {
      assert Lookup(s, id) == Lookup(t, id);
    }
    forall id | id in s ensures s[id] == t[id] {
      assert Lookup(s, id) == Lookup(t, id);
    }
  }

  /** Every change applied counts, whatever the counts were. */
  lemma {:induction false} CountsGrow(a: Build, b: Build, cs: seq<Change>)
    requires ApplySet(a, cs).1 && ApplySet(b, cs).1
    ensures var n := ApplySet(a, cs).0; n.creations + n.deletions == a.creations + a.deletions + |cs|
    ensures ApplySet(a, cs).0.creations - a.creations == ApplySet(b, cs).0.creations - b.creations
  {
    if cs != [] { CountsGrow(a, b, cs[..|cs| - 1]); }
  }

  /** Where a change set fails, it leaves what came before. */
  lemma FailsThere(b: Build, cs: seq<Change>, n: nat)
    requires FailsAt(b.tables, cs, n)
    ensures !ApplySet(b, cs).1 && ApplySet(b, cs).0 == ApplySet(b, cs[..n]).0 && ApplySet(b, cs[..n]).1
  {
    SetIs(b, cs[..n]);
    SetIs(b, cs[..n + 1]);
    RefusedBefore(b.tables, cs, n);
    RefusedBefore(b.tables, cs, n + 1);
    hide Live, ApplyChange, Refused;
    assert cs[..n + 1][..n] == cs[..n];
    FailsHere(b, cs, n + 1);
  }

  lemma FirstRefused(b: Build, cs: seq<Change>) returns (n: nat)
    requires !ApplySet(b, cs).1
    ensures FailsAt(b.tables, cs, n)
  {
    SetIs(b, cs);
    hide ApplySet, Refused;
    assert exists i :: 0 <= i < |cs| && Refused(b.tables, cs, i);
    n := 0;
    while !Refused(b.tables, cs, n)
      invariant n < |cs| && forall i :: 0 <= i < n ==> !Refused(b.tables, cs, i)
      invariant exists i :: n <= i < |cs| && Refused(b.tables, cs, i)
      decreases |cs| - n
    {
      n := n + 1;
    }
  }

  /** Every table that the first `n` changes are about is in the end what it was. */
  predicate PutsBack(tables: map<nat, TableManifest>, cs: seq<Change>, n: nat)
    requires n <= |cs|
  {
    forall i :: 0 <= i < n && !cs[i].Unknown? ==> Live(tables, cs[..n], cs[i].id) == Lookup(tables, cs[i].id)
  }

  lemma {:induction false} NotMentioned(tables: map<nat, TableManifest>, cs: seq<Change>, id: nat)
    requires forall i :: 0 <= i < |cs| ==> !About(cs[i], id)
    ensures Live(tables, cs, id) == Lookup(tables, id)
  {
    if cs != [] { NotMentioned(tables, cs[..|cs| - 1], id); }
  }

  /** A failing change set leaves the tables alone exactly then. */
  lemma FailsCleanly(b: Build, cs: seq<Change>, n: nat)
    requires FailsAt(b.tables, cs, n)
    ensures ApplySet(b, cs).0.tables == b.tables <==> PutsBack(b.tables, cs, n)
  {
    FailsThere(b, cs, n);
    SetIs(b, cs[..n]);
    hide ApplySet, Refused, Live, Lookup;
    var after := ApplySet(b, cs).0.tables;
    if PutsBack(b.tables, cs, n) {
      forall id ensures Lookup(after, id) == Lookup(b.tables, id) {
        if i :| 0 <= i < n && About(cs[i], id) {
          assert cs[..n][i] == cs[i];
        } else {
          NotMentioned(b.tables, cs[..n], id);
        }
      }
      SameTables(after, b.tables);
    }
  }

  // ---------------------------------------------------------------- asChanges

  /** One creation for every table, in any order. */
  ghost predicate Lists(cs: seq<Change>, tables: map<nat, TableManifest>) {
    && (forall i :: 0 <= i < |cs| ==> cs[i].Create? && cs[i].id in tables && cs[i] == CreateOf(cs[i].id, tables[cs[i].id]))
    && (forall i, j :: 0 <= i < j < |cs| ==> cs[i].id != cs[j].id)
    && forall id :: id in tables ==> exists i :: 0 <= i < |cs| && cs[i].id == id
  }

  function CreateOf(id: nat, tm: TableManifest): Change {
    Create(id, tm.level, tm.keyId, tm.compression)
  }

  function IdsOf(cs: seq<Change>): set<nat> {
    if cs == [] then {} else IdsOf(cs[..|cs| - 1]) + match cs[|cs| - 1] case Create(id, _, _, _) => {id} case _ => {}
  }

  lemma {:induction false} IdsMember(cs: seq<Change>, id: nat)
    ensures id in IdsOf(cs) <==> exists i :: 0 <= i < |cs| && cs[i].Create? && cs[i].id == id
  {
    if cs != [] { IdsMember(cs[..|cs| - 1], id); }
  }

  lemma CreateIs(b: Build, c: Change)
    requires c.Create? && c.level < 256 && c.id !in b.tables
    ensures var n := ApplyChange(b, c);
            && n.Some? && n.value.creations == b.creations + 1 && n.value.deletions == b.deletions
            && n.value.tables == b.tables[c.id := TableManifest(c.level, c.keyId, c.compression)]
  {
  }

  /** A listing rebuilds just the tables it lists, one creation each. */
  lemma {:induction false} ListingRebuilds(cs: seq<Change>, tables: map<nat, TableManifest>)
    requires forall i :: 0 <= i < |cs| ==> cs[i].Create? && cs[i].id in tables && cs[i] == CreateOf(cs[i].id, tables[cs[i].id])
    requires forall i, j :: 0 <= i < j < |cs| ==> cs[i].id != cs[j].id
    requires forall id :: id in tables ==> tables[id].level < 256
    ensures var (b, ok) := ApplySet(EMPTY, cs);
            && ok && b.creations == |cs| == |IdsOf(cs)| && b.deletions == 0 && b.tables.Keys == IdsOf(cs)
            && forall id :: id in b.tables ==> id in tables && b.tables[id] == tables[id]
  {
    if cs != [] {
      var front, last := cs[..|cs| - 1], cs[|cs| - 1];
      ListingRebuilds(front, tables);
      IdsMember(front, last.id);
      assert last.id !in IdsOf(front);
      CreateIs(ApplySet(EMPTY, front).0, last);
      hide ApplyChange;
    }
  }

  lemma Rebuilt(cs: seq<Change>, tables: map<nat, TableManifest>)
    requires Lists(cs, tables) && forall id :: id in tables ==> tables[id].level < 256
    ensures var (b, ok) := ApplySet(EMPTY, cs); ok && b.tables == tables && b.creations == |tables| && b.deletions == 0
  {
    ListingRebuilds(cs, tables);
    forall id ensures id in tables <==> id in IdsOf(cs) {
      IdsMember(cs, id);
    }
    assert tables.Keys == IdsOf(cs);
  }

  class Manifest {
    var tables: map<nat, TableManifest>
    var levels: seq<set<nat>>
    var creations: nat
    var deletions: nat

    constructor ()
      ensures State() == EMPTY
    {
      tables, levels, creations, deletions := map[], [], 0, 0;
    }

    function State(): Build
      reads this
    {
      Build(tables, levels, creations, deletions)
    }

    method ApplyManifestChange(tc: Change) returns (ok: bool)
      requires Indexed(State())
      modifies this
      ensures ok == ApplyChange(old(State()), tc).Some?
      ensures State() == if ok then ApplyChange(old(State()), tc).value else old(State())
      ensures Indexed(State())
    {
      ChangeKeepsIndexed(State(), tc);
      if tc.Unknown? {
        return false;
      }
      ok := true;
      if tc.Create? {
        if tc.id in tables {
          return false;
        }
        tables := tables[tc.id := TableManifest(tc.level % 256, tc.keyId, tc.compression)];
        PadLevels(tc.level);
        levels := levels[tc.level := levels[tc.level] + {tc.id}];
        creations := creations + 1;
      } else {
        if tc.id !in tables {
          var was := levels;
          levels := seq(|was|, l requires 0 <= l < |was| => was[l] - {tc.id});
        } else {
          var tm := tables[tc.id];
          levels := levels[tm.level := levels[tm.level] - {tc.id}];
          tables := tables - {tc.id};
        }
        deletions := deletions + 1;
      }
    }

    method PadLevels(level: nat)
      modifies `levels
      ensures levels == Padded(old(levels), level)
    {
      ghost var before := levels;
      while |levels| <= level
        invariant |levels| >= |before| && (|levels| > |before| ==> |levels| <= level + 1)
        invariant forall l :: 0 <= l < |levels| ==> levels[l] == if l < |before| then before[l] else {}
        decreases level - |levels|
      {
        levels := levels + [{}];
      }
      assert levels == Padded(before, level);
    }

    method ApplyChangeSet(changes: seq<Change>) returns (ok: bool)
      requires Indexed(State())
      modifies this
      ensures (State(), ok) == ApplySet(old(State()), changes) && Indexed(State())
    {
      AllOf(changes);
      ghost var before := State();
      for i := 0 to |changes|
        invariant Indexed(State()) && (State(), true) == ApplySet(before, changes[..i])
      {
        assert changes[..i + 1][..i] == changes[..i];
        ok := ApplyManifestChange(changes[i]);
        if !ok {
          FailsHere(before, changes, i + 1);
          return;
        }
      }
      return true;
    }

    method AsChanges() returns (changes: seq<Change>)
      ensures Lists(changes, tables)
    {
      changes := [];
      var todo := tables.Keys;
      while todo != {}
        invariant todo <= tables.Keys
        invariant forall i :: 0 <= i < |changes| ==> changes[i].Create? && changes[i].id in tables && changes[i].id !in todo
        invariant forall i :: 0 <= i < |changes| ==> changes[i] == CreateOf(changes[i].id, tables[changes[i].id])
        invariant forall i, j :: 0 <= i < j < |changes| ==> changes[i].id != changes[j].id
        invariant forall id :: id in tables && id !in todo ==> exists i :: 0 <= i < |changes| && changes[i].id == id
        decreases |todo|
      {
        var id :| id in todo;
        ghost var before := changes;
        changes := changes + [CreateOf(id, tables[id])];
        todo := todo - {id};
        assert forall i :: 0 <= i < |before| ==> changes[i] == before[i];
        assert changes[|before|].id == id;
      }
    }

    /** clone: the creation of all tables, applied to an empty manifest. It never fails. */
    method Clone() returns (ret: Manifest)
      requires Indexed(State())
      ensures fresh(ret) && IsClone(ret.State(), State())
    {
      hide ApplySet, Consistent, Lists;
      var changes := AsChanges();
      ret := new Manifest();
      Rebuilt(changes, tables);
      ListingInRange(changes, State());
      SetKeepsConsistent(EMPTY, changes);
      var ok := ret.ApplyChangeSet(changes);
      assert ok;
    }
  }

  /** The tables of `b`, counted once each, with an index of its own. */
  ghost predicate IsClone(c: Build, b: Build) {
    c.tables == b.tables && c.creations == |b.tables| && c.deletions == 0 && Consistent(c)
  }

  lemma ListingInRange(cs: seq<Change>, b: Build)
    requires Lists(cs, b.tables) && Indexed(b)
    ensures InRange(cs)
  {
  }

  /** A change set fails where its first change fails. */
  lemma {:induction false} FailsHere(b: Build, cs: seq<Change>, i: nat)
    requires i <= |cs| && !ApplySet(b, cs[..i]).1
    ensures ApplySet(b, cs) == ApplySet(b, cs[..i])
    decreases |cs|
  {
    if i < |cs| {
      assert cs[..|cs| - 1][..i] == cs[..i];
      FailsHere(b, cs[..|cs| - 1], i);
    } else {
      AllOf(cs);
    }
  }
}
