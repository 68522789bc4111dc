/**
 The permission table, its seeding, and the module-level cache of the code-to-id index
 (backend/app/db/seed.py, `seed_permissions` and `_permission_index`).

 The table is a sequence in insertion order, which is the order a query without a sort is answered in.
 */
module PermissionIndex {
  import opened Wrappers
  import opened RoleSeeding

  datatype Permission = Permission(code: Code, id: Id)

  type Index = map<string, Id>

  // A seeding run stops at `stopAt` when the database raises there, anything but a duplicate key.
  datatype Op = Seed(catalog: seq<Code>, stopAt: Option<nat>) | Read

  datatype State = State(table: seq<Permission>, nextId: nat, cache: Option<Index>)

  const EMPTY := State([], 0, None)

  predicate Has(table: seq<Permission>, code: Code) {
    exists p :: p in table && p.code == code
  }

  // The dict comprehension: a later row wins over an earlier one with the same dotted code.
  function IndexOf(rows: seq<Permission>): Index {
    if rows == [] then map[] else
      IndexOf(rows[..|rows| - 1])[Dotted(rows[|rows| - 1].code) := rows[|rows| - 1].id]
  }

  function Fetched(table: seq<Permission>): seq<Permission> {
    table[..Min(500, |table|)]
  }

  function Rebuilt(table: seq<Permission>): Index {
    IndexOf(Fetched(table))
  }

  function AddMissing(s: State, code: Code): State {
    if Has(s.table, code) then s else
      s.(table := s.table + [Permission(code, s.nextId)], nextId := s.nextId + 1)
  }

  function AddAll(s: State, catalog: seq<Code>): State {
    if catalog == [] then s else AddMissing(AddAll(s, catalog[..|catalog| - 1]), catalog[|catalog| - 1])
  }

  // What a run reaches before it stops.
  function Done(op: Op): seq<Code>
    requires op.Seed?
  {
    if op.stopAt.Some? && op.stopAt.value < |op.catalog| then op.catalog[..op.stopAt.value] else op.catalog
  }

  predicate Stops(op: Op) {
    op.Seed? && op.stopAt.Some? && op.stopAt.value < |op.catalog|
  }

  function Step(s: State, op: Op): State {
    match op
    case Read => if s.cache.Some? then s else s.(cache := Some(Rebuilt(s.table)))
    case Seed(catalog, stopAt) =>
      var added := AddAll(s, Done(op));
      if Stops(op) then added else added.(cache := None)
  }

  function Run(ops: seq<Op>): State {
    if ops == [] then EMPTY else Step(Run(ops[..|ops| - 1]), ops[|ops| - 1])
  }

  class PermissionStore {
    var table: seq<Permission>
    var nextId: nat
    var cache: Option<Index>

    function Snapshot(): State
      reads this
    {
      State(table, nextId, cache)
    }

    constructor ()
      ensures Snapshot() == EMPTY
    {
      table, nextId, cache := [], 0, None;
    }

    method SeedPermissions(catalog: seq<Code>, stopAt: Option<nat>) returns (raised: bool)
      modifies this
      ensures Snapshot() == Step(old(Snapshot()), Seed(catalog, stopAt))
      ensures raised <==> stopAt.Some? && stopAt.value < |catalog|
      ensures cache == if raised then old(cache) else None
    {
      for i := 0 to |catalog|
        invariant Snapshot() == AddAll(old(Snapshot()), catalog[..i])
        invariant stopAt.Some? ==> i <= stopAt.value
        invariant cache == old(cache)
      {
        if stopAt == Some(i) {
          return true;
        }
        assert catalog[..i + 1][..i] == catalog[..i];
        if !Has(table, catalog[i]) {
          table := table + [Permission(catalog[i], nextId)];
          nextId := nextId + 1;
        }
      }
      assert catalog[..|catalog|] == catalog;
      cache := None;
      return false;
    }

    method GetIndex() returns (index: Index)
      modifies this`cache
      ensures Snapshot() == Step(old(Snapshot()), Read)
      ensures cache == Some(index) && (old(cache).Some? ==> index == old(cache).value)
      ensures old(cache).None? ==> forall key :: key in index <==> exists i :: IsLast(table, key, i)
      ensures old(cache).None? ==> forall key, i :: IsLast(table, key, i) ==> index[key] == table[i].id
    {
      IndexMeans(table);
      if cache.Some? {
        return cache.value;
      }
      var rows := table[..Min(500, |table|)];
      index := map[];
      for i := 0 to |rows|
        invariant index == IndexOf(rows[..i])
      {
        assert rows[..i + 1][..i] == rows[..i];
        index := index[Dotted(rows[i].code) := rows[i].id];
      }
      assert rows[..|rows|] == rows;
      cache := Some(index);
    }
  }

  // The last of the rows a query shows, 500 at most, with a dotted code.
  ghost predicate IsLast(table: seq<Permission>, key: string, i: int) {
    && 0 <= i < Min(500, |table|) && table[i].code.resource + "." + table[i].code.action == key
    && forall j :: i < j < Min(500, |table|) ==> table[j].code.resource + "." + table[j].code.action != key
  }

  // The index has the codes of the rows shown, each with the id of the last one.
  lemma IndexMeans(table: seq<Permission>)
    ensures forall key :: key in Rebuilt(table) <==> exists i :: IsLast(table, key, i)
    ensures forall key, i :: IsLast(table, key, i) ==> key in Rebuilt(table) && Rebuilt(table)[key] == table[i].id
  {
    hide IndexOf;
    var rows := Fetched(table);
    forall key ensures key in Rebuilt(table) <==> exists i :: IsLast(table, key, i) {
      if key in Rebuilt(table) {
        var i := IndexShows(rows, key);
        ShownLast(table, key, i);
      }
      if i :| IsLast(table, key, i) {
        LastShown(table, key, i);
      }
    }
    forall key, i | IsLast(table, key, i) ensures key in Rebuilt(table) && Rebuilt(table)[key] == table[i].id {
      LastShown(table, key, i);
    }
  }

  lemma {:induction false} IndexShows(rows: seq<Permission>, key: string) returns (i: nat)
    requires key in IndexOf(rows)
    ensures i < |rows| && Dotted(rows[i].code) == key && forall j :: i < j < |rows| ==> Dotted(rows[j].code) != key
    ensures IndexOf(rows)[key] == rows[i].id
  {
    var last := |rows| - 1;
    if Dotted(rows[last].code) == key {
      i := last;
    } else {
      i := IndexShows(rows[..last], key);
    }
  }

  lemma {:induction false} IndexGives(rows: seq<Permission>, key: string, i: nat)
    requires i < |rows| && Dotted(rows[i].code) == key && forall j :: i < j < |rows| ==> Dotted(rows[j].code) != key
    ensures key in IndexOf(rows) && IndexOf(rows)[key] == rows[i].id
  {
    if i < |rows| - 1 {
      IndexGives(rows[..|rows| - 1], key, i);
    }
  }

  lemma ShownLast(table: seq<Permission>, key: string, i: nat)
    requires var rows := Fetched(table);
             i < |rows| && Dotted(rows[i].code) == key && forall j :: i < j < |rows| ==> Dotted(rows[j].code) != key
    ensures IsLast(table, key, i)
  {
    assert forall j :: 0 <= j < |Fetched(table)| ==> Fetched(table)[j] == table[j];
  }

  lemma LastShown(table: seq<Permission>, key: string, i: int)
    requires IsLast(table, key, i)
    ensures key in Rebuilt(table) && Rebuilt(table)[key] == table[i].id
  {
    assert forall j :: 0 <= j < |Fetched(table)| ==> Fetched(table)[j] == table[j];
    IndexGives(Fetched(table), key, i);
  }

  // ---------- invariants ----------

  ghost predicate Coherent(s: State) {
    s.cache.None? || s.cache.value == Rebuilt(s.table)
  }

  // Ids are fresh and a code has one row (unique index on resource and action).
  ghost predicate Sound(s: State) {
    && (forall i :: 0 <= i < |s.table| ==> s.table[i].id < s.nextId)
    && (forall i, j :: 0 <= i < j < |s.table| ==> s.table[i].code != s.table[j].code)
  }

  ghost predicate Extends(s: State, s': State) {
    && s'.cache == s.cache && s.nextId <= s'.nextId && s.table <= s'.table
    && (forall i :: |s.table| <= i < |s'.table| ==> s'.table[i].id >= s.nextId)
    && (forall code :: Has(s.table, code) ==> Has(s'.table, code))
  }

  lemma AddMissingAppends(s: State, code: Code)
    requires Sound(s)
    ensures Sound(AddMissing(s, code)) && Extends(s, AddMissing(s, code)) && Has(AddMissing(s, code).table, code)
  {
    var table := AddMissing(s, code).table;
    if table != s.table {
      assert table[|s.table|] in table && table[|s.table|].code == code;
      forall i | 0 <= i < |s.table| ensures s.table[i].code != code {
        assert s.table[i] in s.table;
      }
      forall c | Has(s.table, c) ensures Has(table, c) {
        var p :| p in s.table && p.code == c;
        assert p in table;
      }
    }
  }

  // Seeding only appends rows with new ids, for codes that had none, and misses no code it reached.
  lemma {:induction false} AddAllAppends(s: State, catalog: seq<Code>)
    requires Sound(s)
    ensures Sound(AddAll(s, catalog)) && Extends(s, AddAll(s, catalog))
    ensures forall code :: code in catalog ==> Has(AddAll(s, catalog).table, code)
  {
    if catalog != [] {
      var front, code := catalog[..|catalog| - 1], catalog[|catalog| - 1];
      assert catalog == front + [code];
      AddAllAppends(s, front);
      AddMissingAppends(AddAll(s, front), code);
    }
  }

  // And it adds no others.
  lemma {:induction false} AddedFromCatalog(s: State, catalog: seq<Code>)
    ensures s.table <= AddAll(s, catalog).table
    ensures var table := AddAll(s, catalog).table;
            forall i :: |s.table| <= i < |table| ==> table[i].code in catalog
  {
    if catalog != [] {
      hide Has;
      var front, last := catalog[..|catalog| - 1], catalog[|catalog| - 1];
      AddedFromCatalog(s, front);
      assert catalog == front + [last];
      var before := AddAll(s, front);
      assert AddMissing(before, last).table in {before.table, before.table + [Permission(last, before.nextId)]};
    }
  }

  lemma {:induction false} RunSound(ops: seq<Op>)
    ensures Sound(Run(ops))
  {
    if ops != [] {
      var before, op := ops[..|ops| - 1], ops[|ops| - 1];
      RunSound(before);
      if op.Seed? {
        AddAllAppends(Run(before), Done(op));
      }
    }
  }

  // The cache is absent or equal to the rebuilt index throughout every run in which no seeding stops midway.
  lemma {:induction false} CacheCoherent(ops: seq<Op>)
    requires forall i :: 0 <= i < |ops| ==> !Stops(ops[i])
    ensures Coherent(Run(ops))
  {
    if ops != [] {
      CacheCoherent(ops[..|ops| - 1]);
    }
  }

  // ---------- seedings that stop midway ----------

  lemma {:induction false} IndexedIds(rows: seq<Permission>, bound: nat)
    requires forall i :: 0 <= i < |rows| ==> rows[i].id < bound
    ensures forall key :: key in IndexOf(rows) ==> IndexOf(rows)[key] < bound
  {
    if rows != [] {
      IndexedIds(rows[..|rows| - 1], bound);
    }
  }

  // The key of a new row ends up with a new id.
  lemma {:induction false} NewRowShows(rows: seq<Permission>, from: nat, bound: nat)
    requires from < |rows|
    requires forall i :: from <= i < |rows| ==> rows[i].id >= bound
    ensures Dotted(rows[from].code) in IndexOf(rows) && IndexOf(rows)[Dotted(rows[from].code)] >= bound
  {
    if from < |rows| - 1 {
      NewRowShows(rows[..|rows| - 1], from, bound);
    }
  }

  // Seeding grows the table exactly when some code it reaches has no row.
  lemma {:induction false} AddAllGrowsExactly(s: State, catalog: seq<Code>)
    ensures |AddAll(s, catalog).table| >= |s.table|
    ensures |AddAll(s, catalog).table| > |s.table| <==> exists code :: code in catalog && !Has(s.table, code)
    ensures |AddAll(s, catalog).table| == |s.table| ==> AddAll(s, catalog).table == s.table
  {
    if catalog != [] {
      hide Has;
      var front, last := catalog[..|catalog| - 1], catalog[|catalog| - 1];
      assert catalog == front + [last];
      AddAllGrowsExactly(s, front);
    }
  }

  // Such a run leaves a coherent cache incoherent exactly when there is a cache, some code it reaches has no
  // row yet, and the query limit still has room to show one.
  lemma StoppedSeedingBreaksCacheExactly(ops: seq<Op>, op: Op)
    requires Stops(op) && Coherent(Run(ops))
    ensures var s := Run(ops);
            !Coherent(Step(s, op)) <==>
            && s.cache.Some? && |s.table| < 500
            && exists code :: code in Done(op) && !Has(s.table, code)
  {
    hide Has;
    var s, s' := Run(ops), Step(Run(ops), op);
    RunSound(ops);
    AddAllAppends(s, Done(op));
    AddAllGrowsExactly(s, Done(op));
    var had, has := Fetched(s.table), Fetched(s'.table);
    if |s'.table| == |s.table| || |s.table| >= 500 {
      assert has == had;
    } else {
      assert has[|s.table|] == s'.table[|s.table|];
      IndexedIds(had, s.nextId);
      NewRowShows(has, |s.table|, s.nextId);
    }
  }

  // A run that gets there: the index is read before the first seeding, which stops after one row.
  lemma StoppedSeedingLeavesStaleCache()
    ensures var seed := Seed([Code("order", "read"), Code("order", "write")], Some(1));
            var s := Run([Read, seed]);
            !Coherent(s) && s.cache == Some(map[]) && Dotted(Code("order", "read")) in Rebuilt(s.table)
  {
    var code := Code("order", "read");
    var seed := Seed([code, Code("order", "write")], Some(1));
    assert [Read, seed][..1] == [Read] && [Read][..0] == [];
    assert Run([]) == EMPTY && Fetched([]) == [];
    assert Run([Read]) == EMPTY.(cache := Some(map[]));
    assert Done(seed) == [code] && [code][..0] == [];
    StoppedSeedingBreaksCacheExactly([Read], seed);
    var before := Run([Read]);
    assert AddAll(before, []) == before && !Has(before.table, code);
    assert AddAll(before, [code]) == AddMissing(before, code);
    var s := Run([Read, seed]);
    assert s == Step(before, seed) && s.table == [Permission(code, 0)];
    assert Fetched(s.table) == s.table && s.table[..0] == [];
  }

  // ---------- what the index holds after seeding ----------

  lemma {:induction false} IndexHolds(rows: seq<Permission>, key: string)
    ensures key in IndexOf(rows) <==> exists i :: 0 <= i < |rows| && Dotted(rows[i].code) == key
  {
    if rows != [] {
      IndexHolds(rows[..|rows| - 1], key);
      assert rows[|rows| - 1] == rows[|rows| - 1];
    }
  }

  // Reading the index right after a complete seeding shows every catalog code, if the table fits the limit.
  lemma SeededCodesIndexed(ops: seq<Op>, seed: Op, code: Code)
    requires seed.Seed? && !Stops(seed) && code in seed.catalog
    requires |Step(Run(ops), seed).table| <= 500
    ensures var s := Step(Step(Run(ops), seed), Read);
            s.cache.Some? && code.resource + "." + code.action in s.cache.value
  {
    var s := Step(Run(ops), seed);
    RunSound(ops);
    AddAllAppends(Run(ops), seed.catalog);
    assert Fetched(s.table) == s.table;
    var p :| p in s.table && p.code == code;
    IndexHolds(s.table, Dotted(code));
  }

  // In general the index then holds exactly the codes of the first 500 rows, each with the id of its last row.
  lemma IndexedExactly(ops: seq<Op>, seed: Op, key: string)
    requires seed.Seed? && !Stops(seed)
    ensures var s := Step(Step(Run(ops), seed), Read);
            && s.cache.Some?
            && (key in s.cache.value <==> exists i :: IsLast(s.table, key, i))
            && forall i :: IsLast(s.table, key, i) ==> key in s.cache.value && s.cache.value[key] == s.table[i].id
  {
    hide IndexOf;
    IndexMeans(Step(Step(Run(ops), seed), Read).table);
  }
}
