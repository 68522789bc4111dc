/**
 Seeding of system roles (backend/app/db/seed.py, `_seed_roles_for_business`): the reconciling path, the
 bulk path for a fresh business, and what both leave in the role and grant collections.

 A collection with a unique index is a map or a set, so a duplicate insert shows as a refused one. A
 query with a limit answers with some rows, in no promised order: the answer is a parameter `answer`,
 and every result below holds for all answers the limit allows.
 */
module RoleSeeding {
  type Id = nat

  datatype Code = Code(resource: string, action: string)

  datatype RoleKey = RoleKey(business: string, name: string)

  datatype Grant = Grant(role: Id, permission: Id)

  // roles: unique (business, name); grants: unique (role, permission). Every id in use is below nextId.
  datatype Store = Store(roles: map<RoleKey, Id>, grants: set<Grant>, nextId: nat)

  ghost predicate Valid(s: Store) {
    && (forall key :: key in s.roles ==> s.roles[key] < s.nextId)
    && (forall k1, k2 :: k1 in s.roles && k2 in s.roles && s.roles[k1] == s.roles[k2] ==> k1 == k2)
    && (forall g :: g in s.grants ==> g.role < s.nextId)
  }

  function Dotted(code: Code): string {
    code.resource + "." + code.action
  }

  // `wanted_ids`: the wanted codes that the permission index knows, as ids.
  function WantedIds(codes: set<Code>, index: map<string, Id>): set<Id> {
    set code | code in codes && Dotted(code) in index :: index[Dotted(code)]
  }

  function Permissions(grants: set<Grant>, role: Id): set<Id> {
    set g | g in grants && g.role == role :: g.permission
  }

  function GrantsFor(role: Id, permissions: set<Id>): set<Grant> {
    set p | p in permissions :: Grant(role, p)
  }

  function Min(a: nat, b: nat): nat { if a < b then a else b }

  // What a limited query may answer: some of the rows, and as many as the limit lets through.
  ghost predicate LimitedAnswer(answer: set<Id> -> set<Id>) {
    forall rows :: answer(rows) <= rows && |answer(rows)| == Min(500, |rows|)
  }

  // ---------- the reconciling path ----------

  // Collections and pending grant documents.
  datatype Progress = Progress(store: Store, docs: set<Grant>)

  function EnsureRole(s: Store, key: RoleKey): Store {
    if key in s.roles then s else s.(roles := s.roles[key := s.nextId], nextId := s.nextId + 1)
  }

  function Visit(p: Progress, key: RoleKey, wanted: set<Id>, answer: set<Id> -> set<Id>): Progress {
    var s := EnsureRole(p.store, key);
    var role := s.roles[key];
    var existing := answer(Permissions(s.grants, role));
    Progress(s.(grants := s.grants - GrantsFor(role, existing - wanted)),
             p.docs + GrantsFor(role, wanted - existing))
  }

  function VisitAll(s: Store, business: string, names: seq<string>, grantsOf: map<string, set<Code>>,
                    index: map<string, Id>, answer: set<Id> -> set<Id>): Progress
  {
    if names == [] then Progress(s, {}) else
      var name := names[|names| - 1];
      Visit(VisitAll(s, business, names[..|names| - 1], grantsOf, index, answer),
            RoleKey(business, name), WantedFor(name, grantsOf, index), answer)
  }

  function WantedFor(name: string, grantsOf: map<string, set<Code>>, index: map<string, Id>): set<Id> {
    WantedIds(if name in grantsOf then grantsOf[name] else {}, index)
  }

  function Reconcile(s: Store, business: string, names: seq<string>, grantsOf: map<string, set<Code>>,
                     index: map<string, Id>, answer: set<Id> -> set<Id>): Store
  {
    var p := VisitAll(s, business, names, grantsOf, index, answer);
    p.store.(grants := p.store.grants + p.docs)
  }

  // ---------- the bulk path ----------

  datatype Outcome = Created | DuplicateRole | DuplicateGrant

  // An ordered insert stops at the first duplicate key and keeps what went before. The documents got
  // their ids first, one after the other from `firstId`.
  function InsertRoles(roles: map<RoleKey, Id>, business: string, names: seq<string>, firstId: nat)
    : (map<RoleKey, Id>, bool)
  {
    if names == [] then (roles, true) else
      var (inserted, ok) := InsertRoles(roles, business, names[..|names| - 1], firstId);
      var key := RoleKey(business, names[|names| - 1]);
      if ok && key !in inserted then (inserted[key := firstId + |names| - 1], true) else (inserted, false)
  }

  function FreshDocs(names: seq<string>, grantsOf: map<string, set<Code>>, index: map<string, Id>, firstId: nat)
    : set<Grant>
  {
    if names == [] then {} else
      FreshDocs(names[..|names| - 1], grantsOf, index, firstId) +
      GrantsFor(firstId + |names| - 1, WantedFor(names[|names| - 1], grantsOf, index))
  }

  // Two wanted codes with one permission id make two equal grant documents.
  predicate InjectiveOn(codes: set<Code>, index: map<string, Id>) {
    forall c1, c2 | c1 in codes && c2 in codes && Dotted(c1) in index && Dotted(c2) in index ::
      index[Dotted(c1)] == index[Dotted(c2)] ==> c1 == c2
  }

  function CodesOf(name: string, grantsOf: map<string, set<Code>>): set<Code> {
    if name in grantsOf then grantsOf[name] else {}
  }

  predicate AllInjective(names: seq<string>, grantsOf: map<string, set<Code>>, index: map<string, Id>) {
    names == [] ||
    (AllInjective(names[..|names| - 1], grantsOf, index) && InjectiveOn(CodesOf(names[|names| - 1], grantsOf), index))
  }

  // The unordered grant insert writes every document but the duplicates, then raises if there were any.
  function Fresh(s: Store, business: string, names: seq<string>, grantsOf: map<string, set<Code>>,
                 index: map<string, Id>): (Store, Outcome)
  {
    var (roles, ok) := InsertRoles(s.roles, business, names, s.nextId);
    var nextId := s.nextId + |names|;
    if !ok then (s.(roles := roles, nextId := nextId), DuplicateRole) else
      (Store(roles, s.grants + FreshDocs(names, grantsOf, index, s.nextId), nextId),
       if AllInjective(names, grantsOf, index) then Created else DuplicateGrant)
  }

  ghost predicate Distinct(names: seq<string>) {
    forall i, j :: 0 <= i < j < |names| ==> names[i] != names[j]
  }

  ghost predicate NoRoleYet(s: Store, business: string, names: seq<string>) {
    forall i :: 0 <= i < |names| ==> RoleKey(business, names[i]) !in s.roles
  }

  // ---------- the collections, updated in place ----------

  class RoleCollections {
    var roles: map<RoleKey, Id>
    var grants: set<Grant>
    var nextId: nat

    function Snapshot(): Store
      reads this
    {
      Store(roles, grants, nextId)
    }

    constructor (store: Store)
      ensures Snapshot() == store
    {
      roles, grants, nextId := store.roles, store.grants, store.nextId;
    }

    method FindOrCreateRole(key: RoleKey) returns (role: Id)
      modifies this`roles, this`nextId
      ensures Snapshot() == EnsureRole(old(Snapshot()), key)
      ensures key in roles && role == roles[key]
    {
      if key !in roles {
        roles := roles[key := nextId];
        nextId := nextId + 1;
      }
      role := roles[key];
    }

    method SeedReconciling(business: string, names: seq<string>, grantsOf: map<string, set<Code>>,
                           index: map<string, Id>, answer: set<Id> -> set<Id>)
      modifies this
      ensures Snapshot() == Reconcile(old(Snapshot()), business, names, grantsOf, index, answer)
    {
      var grantDocs: set<Grant> := {};
      for n := 0 to |names|
        invariant Progress(Snapshot(), grantDocs) ==
                  VisitAll(old(Snapshot()), business, names[..n], grantsOf, index, answer)
      {
        assert names[..n + 1][..n] == names[..n];
        label Loop:
        var role := FindOrCreateRole(RoleKey(business, names[n]));
        var wanted := WantedFor(names[n], grantsOf, index);
        var existing := answer(Permissions(grants, role));
        var stale := existing - wanted;
        if stale != {} {
          grants := grants - GrantsFor(role, stale);
        }
        var missing := MissingDocs(role, wanted, existing - stale);
        grantDocs := grantDocs + missing;
        assert grants == old@Loop(grants) - GrantsFor(role, stale);
        assert wanted - (existing - stale) == wanted - existing;
      }
      assert names[..|names|] == names;
      if grantDocs != {} {
        grants := grants + grantDocs;
      }
    }

    method MissingDocs(role: Id, wanted: set<Id>, existing: set<Id>) returns (docs: set<Grant>)
      ensures docs == GrantsFor(role, wanted - existing)
    {
      docs := {};
      var pending, present := wanted, existing;
      while pending != {}
        invariant pending <= wanted
        invariant present == existing + (wanted - pending)
        invariant docs == GrantsFor(role, (wanted - pending) - existing)
      {
        var pid :| pid in pending;
        pending := pending - {pid};
        if pid !in present {
          docs := docs + {Grant(role, pid)};
          present := present + {pid};
        }
      }
      assert wanted - pending == wanted;
    }

    method SeedFresh(business: string, names: seq<string>, grantsOf: map<string, set<Code>>, index: map<string, Id>)
      returns (outcome: Outcome)
      modifies this
      ensures (Snapshot(), outcome) == Fresh(old(Snapshot()), business, names, grantsOf, index)
    {
      var firstId := nextId;
      var roleDocs, grantDocs, duplicate := BuildDocs(business, names, grantsOf, index);
      var ok := InsertManyRoles(roleDocs, business, names, firstId);
      if !ok {
        return DuplicateRole;
      }
      grants := grants + grantDocs;
      return if duplicate then DuplicateGrant else Created;
    }

    method BuildDocs(business: string, names: seq<string>, grantsOf: map<string, set<Code>>, index: map<string, Id>)
      returns (roleDocs: seq<(RoleKey, Id)>, grantDocs: set<Grant>, duplicate: bool)
      modifies this`nextId
      ensures nextId == old(nextId) + |names|
      ensures |roleDocs| == |names|
      ensures forall i :: 0 <= i < |names| ==> roleDocs[i] == (RoleKey(business, names[i]), old(nextId) + i)
      ensures grantDocs == FreshDocs(names, grantsOf, index, old(nextId))
      ensures duplicate <==> !AllInjective(names, grantsOf, index)
    {
      hide FreshDocs, AllInjective, InjectiveOn, GrantsFor, WantedIds;
      var firstId := nextId;
      roleDocs, grantDocs, duplicate := [], {}, false;
      NoDocs(grantsOf, index, firstId);
      assert names[..0] == [];
      for n := 0 to |names|
        invariant nextId == firstId + n && |roleDocs| == n
        invariant forall i :: 0 <= i < n ==> roleDocs[i] == (RoleKey(business, names[i]), firstId + i)
        invariant grantDocs == FreshDocs(names[..n], grantsOf, index, firstId)
        invariant duplicate <==> !AllInjective(names[..n], grantsOf, index)
      {
        var name, role := names[n], nextId;
        nextId := nextId + 1;
        roleDocs := roleDocs + [(RoleKey(business, name), role)];
        var docs, twice := GrantDocs(role, CodesOf(name, grantsOf), index);
        grantDocs, duplicate := grantDocs + docs, duplicate || twice;
        NextDocs(names, n, grantsOf, index, firstId);
      }
      assert names[..|names|] == names;
    }

    // The inner loop: the documents of one role, and whether two of them are equal.
    method GrantDocs(role: Id, codes: set<Code>, index: map<string, Id>) returns (docs: set<Grant>, twice: bool)
      ensures docs == GrantsFor(role, WantedIds(codes, index))
      ensures twice <==> !InjectiveOn(codes, index)
    {
      docs, twice := {}, false;
      var pending := codes;
      while pending != {}
        invariant pending <= codes
        invariant docs == GrantsFor(role, WantedIds(codes - pending, index))
        invariant twice <==> !InjectiveOn(codes - pending, index)
      {
        var code :| code in pending;
        ghost var done := codes - pending;
        pending := pending - {code};
        assert codes - pending == done + {code};
        if Dotted(code) in index {
          var doc := Grant(role, index[Dotted(code)]);
          assert doc in docs <==> exists c :: c in done && Dotted(c) in index && index[Dotted(c)] == doc.permission;
          twice := twice || doc in docs;
          docs := docs + {doc};
          assert WantedIds(done + {code}, index) == WantedIds(done, index) + {doc.permission};
        } else {
          assert WantedIds(done + {code}, index) == WantedIds(done, index);
        }
      }
      assert codes - pending == codes;
    }

    // insert_many, ordered.
    method InsertManyRoles(docs: seq<(RoleKey, Id)>, ghost business: string, ghost names: seq<string>,
                           ghost firstId: nat)
      returns (ok: bool)
      requires |docs| == |names|
      requires forall i :: 0 <= i < |docs| ==> docs[i] == (RoleKey(business, names[i]), firstId + i)
      modifies this`roles
      ensures (roles, ok) == InsertRoles(old(roles), business, names, firstId)
    {
      for i := 0 to |docs|
        invariant (roles, true) == InsertRoles(old(roles), business, names[..i], firstId)
      {
        assert names[..i + 1][..i] == names[..i];
        if docs[i].0 in roles {
          InsertStops(old(roles), business, names, firstId, i + 1);
          return false;
        }
        roles := roles[docs[i].0 := docs[i].1];
      }
      assert names[..|names|] == names;
      return true;
    }
  }

  lemma NoDocs(grantsOf: map<string, set<Code>>, index: map<string, Id>, firstId: nat)
    ensures FreshDocs([], grantsOf, index, firstId) == {} && AllInjective([], grantsOf, index)
  {
  }

  lemma NextDocs(names: seq<string>, n: nat, grantsOf: map<string, set<Code>>, index: map<string, Id>, firstId: nat)
    requires n < |names|
    ensures FreshDocs(names[..n + 1], grantsOf, index, firstId) ==
            FreshDocs(names[..n], grantsOf, index, firstId) +
            GrantsFor(firstId + n, WantedIds(CodesOf(names[n], grantsOf), index))
    ensures AllInjective(names[..n + 1], grantsOf, index) <==>
            AllInjective(names[..n], grantsOf, index) && InjectiveOn(CodesOf(names[n], grantsOf), index)
  {
    hide InjectiveOn, GrantsFor, WantedIds;
    assert names[..n + 1][..n] == names[..n];
  }

  lemma {:induction false} InsertStops(roles: map<RoleKey, Id>, business: string, names: seq<string>, firstId: nat,
                                       i: nat)
    requires i <= |names| && !InsertRoles(roles, business, names[..i], firstId).1
    ensures InsertRoles(roles, business, names, firstId) == InsertRoles(roles, business, names[..i], firstId)
    decreases |names| - i
  {
    if i < |names| {
      assert names[..i + 1][..i] == names[..i];
      InsertStops(roles, business, names, firstId, i + 1);
    } else {
      assert names[..i] == names;
    }
  }

  // ---------- what the reconciling path leaves ----------

  function Granted(s: Store, key: RoleKey): set<Id> {
    if key in s.roles then Permissions(s.grants, s.roles[key]) else {}
  }

  lemma PermissionsAfterDelete(grants: set<Grant>, role: Id, gone: set<Id>, other: Id)
    ensures Permissions(grants - GrantsFor(role, gone), other) ==
            if other == role then Permissions(grants, other) - gone else Permissions(grants, other)
  {
    var left := grants - GrantsFor(role, gone);
    forall p ensures p in Permissions(left, other) <==> Grant(other, p) in left {
    }
  }

  lemma PermissionsAfterInsert(grants: set<Grant>, docs: set<Grant>, other: Id)
    ensures Permissions(grants + docs, other) == Permissions(grants, other) + Permissions(docs, other)
  {
    forall p ensures p in Permissions(grants + docs, other) <==> Grant(other, p) in grants + docs {
    }
  }

  lemma PermissionsOfDocs(role: Id, permissions: set<Id>, other: Id)
    ensures Permissions(GrantsFor(role, permissions), other) == if other == role then permissions else {}
  {
    var docs := GrantsFor(role, permissions);
    forall p ensures p in Permissions(docs, other) <==> Grant(other, p) in docs {
    }
  }

  ghost predicate Sound(p: Progress) {
    Valid(p.store) && forall g :: g in p.docs ==> g.role < p.store.nextId
  }

  // One visit acts on one role only: it deletes what it fetched and does not want, and queues what it
  // wants and did not fetch.
  lemma VisitActs(p: Progress, key: RoleKey, wanted: set<Id>, answer: set<Id> -> set<Id>, other: Id)
    requires Sound(p)
    ensures var p' := Visit(p, key, wanted, answer); var before := Granted(p.store, key);
            && Sound(p') && key in p'.store.roles
            && (forall k :: k in p.store.roles ==> k in p'.store.roles && p'.store.roles[k] == p.store.roles[k])
            && p'.store.roles.Keys == p.store.roles.Keys + {key}
            && p.store.nextId <= p'.store.nextId
            && Permissions(p'.store.grants, other) == (if other == p'.store.roles[key]
                 then before - (answer(before) - wanted) else Permissions(p.store.grants, other))
            && Permissions(p'.docs, other) ==
               Permissions(p.docs, other) + if other == p'.store.roles[key] then wanted - answer(before) else {}
  {
    var s := EnsureRole(p.store, key);
    var role := s.roles[key];
    if key !in p.store.roles {
      assert role == p.store.nextId;
      assert forall g :: g in p.store.grants ==> g.role != role;
    }
    var existing := answer(Granted(p.store, key));
    assert Permissions(s.grants, role) == Granted(p.store, key);
    PermissionsAfterDelete(s.grants, role, existing - wanted, other);
    PermissionsAfterInsert(p.docs, GrantsFor(role, wanted - existing), other);
    PermissionsOfDocs(role, wanted - existing, other);
  }

  // What visiting some names has done to a role that held `had` before: `kept` is in the table now and
  // `queued` waits to be inserted.
  ghost predicate Moved(kept: set<Id>, queued: set<Id>, had: set<Id>, wanted: set<Id>, fetched: set<Id>,
                        exactly: bool) {
    && had * wanted <= kept <= had
    && queued <= wanted <= kept + queued
    && kept - wanted <= had - fetched
    && (exactly ==> kept - wanted == had - fetched - wanted)
  }

  lemma MovedFirst(had: set<Id>, wanted: set<Id>, fetched: set<Id>)
    requires fetched <= had
    ensures Moved(had - (fetched - wanted), wanted - fetched, had, wanted, fetched, true)
  {
  }

  lemma MovedAgain(kept: set<Id>, queued: set<Id>, had: set<Id>, wanted: set<Id>, fetched: set<Id>, exactly: bool,
                   now: set<Id>)
    requires Moved(kept, queued, had, wanted, fetched, exactly) && now <= kept
    ensures Moved(kept - (now - wanted), queued + (wanted - now), had, wanted, fetched, false)
  {
  }

  ghost predicate Touched(p: Progress, key: RoleKey, had: set<Id>, wanted: set<Id>, fetched: set<Id>, exactly: bool) {
    && key in p.store.roles
    && var role := p.store.roles[key];
       Moved(Permissions(p.store.grants, role), Permissions(p.docs, role), had, wanted, fetched, exactly)
  }

  ghost predicate Untouched(p: Progress, s: Store, key: RoleKey) {
    && (key in p.store.roles <==> key in s.roles)
    && (key in s.roles ==> p.store.roles[key] == s.roles[key] && Permissions(p.docs, s.roles[key]) == {})
    && Granted(p.store, key) == Granted(s, key)
  }

  lemma {:induction false} VisitAllActs(s: Store, business: string, names: seq<string>,
                                        grantsOf: map<string, set<Code>>, index: map<string, Id>,
                                        answer: set<Id> -> set<Id>, key: RoleKey)
    requires Valid(s) && LimitedAnswer(answer)
    ensures var p := VisitAll(s, business, names, grantsOf, index, answer); var had := Granted(s, key);
            && Sound(p)
            && s.nextId <= p.store.nextId
            && (if key.business == business && key.name in names
                then Touched(p, key, had, WantedFor(key.name, grantsOf, index), answer(had), Distinct(names))
                else Untouched(p, s, key))
  {
    hide Visit, Touched, Untouched, Sound, Permissions, Granted, WantedFor, LimitedAnswer, Valid;
    if names == [] {
      NothingVisited(s, key);
    } else {
      var front, name := names[..|names| - 1], names[|names| - 1];
      assert names == front + [name];
      VisitAllActs(s, business, front, grantsOf, index, answer, key);
      var p, visited := VisitAll(s, business, front, grantsOf, index, answer), RoleKey(business, name);
      var wanted := WantedFor(name, grantsOf, index);
      if visited == key {
        var again := name in front;
        VisitsOwn(p, s, key, wanted, answer, again, Distinct(front));
        if !again && !Distinct(names) {
          Loosen(Visit(p, key, wanted, answer), key, Granted(s, key), wanted, answer(Granted(s, key)));
        }
      } else {
        VisitsOther(p, s, visited, wanted, answer, key);
        var had, own := Granted(s, key), WantedFor(key.name, grantsOf, index);
        if key.business == business && key.name in front {
          StaysTouched(p, visited, wanted, answer, key, had, own, answer(had), Distinct(front));
          if Distinct(front) && !Distinct(names) {
            Loosen(Visit(p, visited, wanted, answer), key, had, own, answer(had));
          }
        }
      }
    }
  }

  lemma NothingVisited(s: Store, key: RoleKey)
    requires Valid(s)
    ensures Sound(Progress(s, {})) && Untouched(Progress(s, {}), s, key)
  {
  }

  lemma Loosen(p: Progress, key: RoleKey, had: set<Id>, wanted: set<Id>, fetched: set<Id>)
    requires Touched(p, key, had, wanted, fetched, true)
    ensures Touched(p, key, had, wanted, fetched, false)
  {
  }

  lemma VisitsOwn(p: Progress, s: Store, key: RoleKey, wanted: set<Id>, answer: set<Id> -> set<Id>, again: bool,
                  exactly: bool)
    requires LimitedAnswer(answer) && Sound(p)
    requires if again
             then Touched(p, key, Granted(s, key), wanted, answer(Granted(s, key)), exactly)
             else Untouched(p, s, key)
    ensures var p' := Visit(p, key, wanted, answer);
            && Sound(p') && p.store.nextId <= p'.store.nextId
            && Touched(p', key, Granted(s, key), wanted, answer(Granted(s, key)), !again)
  {
    hide Visit, Sound, Moved, Permissions;
    var had, before := Granted(s, key), Granted(p.store, key);
    var role := EnsureRole(p.store, key).roles[key];
    VisitActs(p, key, wanted, answer, role);
    VisitRole(p, key, wanted, answer);
    assert answer(before) <= before;
    if again {
      MovedAgain(before, Permissions(p.docs, role), had, wanted, answer(had), exactly, answer(before));
    } else {
      MovedFirst(had, wanted, answer(had));
    }
  }

  lemma VisitRole(p: Progress, key: RoleKey, wanted: set<Id>, answer: set<Id> -> set<Id>)
    requires Sound(p)
    ensures var role := EnsureRole(p.store, key).roles[key];
            && Visit(p, key, wanted, answer).store.roles == EnsureRole(p.store, key).roles
            && (key !in p.store.roles ==> Permissions(p.docs, role) == {})
  {
  }

  // A visit to another role leaves what is known of `key`.
  lemma VisitsOther(p: Progress, s: Store, visited: RoleKey, wanted: set<Id>, answer: set<Id> -> set<Id>, key: RoleKey)
    requires Sound(p) && visited != key
    ensures var p' := Visit(p, visited, wanted, answer);
            && Sound(p') && p.store.nextId <= p'.store.nextId
            && (Untouched(p, s, key) ==> Untouched(p', s, key))
  {
    hide Visit, Permissions;
    var role := if key in p.store.roles then p.store.roles[key] else 0;
    VisitActs(p, visited, wanted, answer, role);
    VisitRole(p, visited, wanted, answer);
  }

  lemma StaysTouched(p: Progress, visited: RoleKey, wanted: set<Id>, answer: set<Id> -> set<Id>, key: RoleKey,
                     had: set<Id>, own: set<Id>, fetched: set<Id>, exactly: bool)
    requires Sound(p) && visited != key && Touched(p, key, had, own, fetched, exactly)
    ensures Touched(Visit(p, visited, wanted, answer), key, had, own, fetched, exactly)
  {
    hide Visit, Permissions, Moved;
    var role := p.store.roles[key];
    VisitActs(p, visited, wanted, answer, role);
    VisitRole(p, visited, wanted, answer);
    assert Permissions(p.docs, role) + {} == Permissions(p.docs, role);
  }

  // ---------- main results ----------

  // After reconciling, a named role exists and holds what it should, plus at most stale grants that the
  // limited query did not show; never less. With distinct names it holds exactly that.
  lemma ReconciledGrants(s: Store, business: string, names: seq<string>, grantsOf: map<string, set<Code>>,
                         index: map<string, Id>, answer: set<Id> -> set<Id>, name: string)
    requires Valid(s) && LimitedAnswer(answer) && name in names
    ensures var s' := Reconcile(s, business, names, grantsOf, index, answer); var key := RoleKey(business, name);
            var had, wanted := Granted(s, key), WantedFor(name, grantsOf, index);
            && Valid(s') && key in s'.roles && (key in s.roles ==> s'.roles[key] == s.roles[key])
            && wanted <= Granted(s', key) <= wanted + (had - answer(had))
            && (Distinct(names) ==> Granted(s', key) == wanted + (had - answer(had)))
  {
    var key := RoleKey(business, name);
    var p := VisitAll(s, business, names, grantsOf, index, answer);
    VisitAllActs(s, business, names, grantsOf, index, answer, key);
    if key in s.roles {
      VisitAllKeepsIds(s, business, names, grantsOf, index, answer, key);
    }
    TouchedEndsUp(p, key, Granted(s, key), WantedFor(name, grantsOf, index), answer(Granted(s, key)), Distinct(names));
  }

  lemma TouchedEndsUp(p: Progress, key: RoleKey, had: set<Id>, wanted: set<Id>, fetched: set<Id>, exactly: bool)
    requires Sound(p) && Touched(p, key, had, wanted, fetched, exactly)
    ensures var s := p.store.(grants := p.store.grants + p.docs);
            && Valid(s)
            && wanted <= Granted(s, key) <= wanted + (had - fetched)
            && (exactly ==> Granted(s, key) == wanted + (had - fetched))
  {
    var role := p.store.roles[key];
    var kept, queued := Permissions(p.store.grants, role), Permissions(p.docs, role);
    PermissionsAfterInsert(p.store.grants, p.docs, role);
    assert kept + queued == wanted + (kept - wanted);
    assert exactly ==> kept - wanted == had - fetched - wanted;
    assert wanted + (had - fetched - wanted) == wanted + (had - fetched);
  }

  lemma {:induction false} VisitAllKeepsIds(s: Store, business: string, names: seq<string>,
                                            grantsOf: map<string, set<Code>>, index: map<string, Id>,
                                            answer: set<Id> -> set<Id>, key: RoleKey)
    requires key in s.roles
    ensures var p := VisitAll(s, business, names, grantsOf, index, answer);
            key in p.store.roles && p.store.roles[key] == s.roles[key]
  {
    if names != [] {
      VisitAllKeepsIds(s, business, names[..|names| - 1], grantsOf, index, answer, key);
    }
  }

  // It holds exactly its wanted grants if and only if every row the query left out is wanted.
  lemma ReconciledExactlyWhen(s: Store, business: string, names: seq<string>, grantsOf: map<string, set<Code>>,
                              index: map<string, Id>, answer: set<Id> -> set<Id>, name: string)
    requires Valid(s) && LimitedAnswer(answer) && Distinct(names) && name in names
    ensures var s' := Reconcile(s, business, names, grantsOf, index, answer); var key := RoleKey(business, name);
            var had, wanted := Granted(s, key), WantedFor(name, grantsOf, index);
            Granted(s', key) == wanted <==> had - answer(had) <= wanted
  {
    ReconciledGrants(s, business, names, grantsOf, index, answer, name);
  }

  lemma {:induction false} SubsetOfSameSize(a: set<Id>, b: set<Id>)
    requires a <= b && |a| == |b|
    ensures a == b
  {
    assert |b - a| == |b| - |a|;
  }

  lemma {:induction false} SubsetSize(a: set<Id>, b: set<Id>)
    requires a <= b
    ensures |a| <= |b|
  {
    assert b == a + (b - a);
  }

  lemma FullAnswer(answer: set<Id> -> set<Id>, rows: set<Id>)
    requires LimitedAnswer(answer)
    ensures |rows| <= 500 ==> answer(rows) == rows
    ensures |answer(rows)| <= 500
  {
    if |rows| <= 500 {
      SubsetOfSameSize(answer(rows), rows);
    }
  }

  // Up to the query limit that always holds, whatever the order of the rows and however often a name is
  // listed.
  lemma ReconciledUpToLimit(s: Store, business: string, names: seq<string>, grantsOf: map<string, set<Code>>,
                            index: map<string, Id>, answer: set<Id> -> set<Id>, name: string)
    requires Valid(s) && LimitedAnswer(answer) && name in names
    requires |Granted(s, RoleKey(business, name))| <= 500
    ensures Granted(Reconcile(s, business, names, grantsOf, index, answer), RoleKey(business, name)) ==
            WantedFor(name, grantsOf, index)
  {
    ReconciledGrants(s, business, names, grantsOf, index, answer, name);
    FullAnswer(answer, Granted(s, RoleKey(business, name)));
  }

  // A subset of a given size that leaves out `x` if it can.
  lemma {:induction false} SomeOf(rows: set<Id>, size: nat, x: Id) returns (part: set<Id>)
    requires size <= |rows|
    ensures part <= rows && |part| == size
    ensures size < |rows| ==> x !in part
    decreases |rows|
  {
    if |rows| == size {
      part := rows;
    } else {
      var y := x;
      if x !in rows {
        y :| y in rows;
      }
      part := SomeOf(rows - {y}, size, x);
      assert |rows - {y}| == |rows| - 1;
    }
  }

  lemma LimitedPartExists(rows: set<Id>, x: Id)
    ensures exists part :: LimitedPart(part, rows, x)
  {
    var part := SomeOf(rows, Min(500, |rows|), x);
    assert LimitedPart(part, rows, x);
  }

  ghost predicate LimitedPart(part: set<Id>, rows: set<Id>, x: Id) {
    part <= rows && |part| == Min(500, |rows|) && (|rows| > 500 ==> x !in part)
  }

  // An answer that leaves out `x` wherever the limit leaves out anything.
  ghost function Hiding(x: Id): (answer: set<Id> -> set<Id>)
    ensures LimitedAnswer(answer)
    ensures forall rows :: |rows| > 500 ==> x !in answer(rows)
  {
    (rows: set<Id>) => LimitedPartExists(rows, x); var part :| LimitedPart(part, rows, x); part
  }

  // A role can be relied on to end with exactly its wanted grants, whatever rows the query answers with, if
  // and only if it starts with no more grants than the limit or with none that is stale. Names are distinct,
  // as in the source's tuples; a name listed twice is visited twice and may lose more stale grants.
  lemma ReconciledForSureExactly(s: Store, business: string, names: seq<string>, grantsOf: map<string, set<Code>>,
                                 index: map<string, Id>, name: string)
    requires Valid(s) && Distinct(names) && name in names
    ensures var key, wanted := RoleKey(business, name), WantedFor(name, grantsOf, index);
            var had := Granted(s, key);
            (forall answer :: LimitedAnswer(answer) ==>
               Granted(Reconcile(s, business, names, grantsOf, index, answer), key) == wanted) <==>
            |had| <= 500 || had <= wanted
  {
    hide Reconcile, WantedFor, Granted, LimitedAnswer;
    var key, wanted := RoleKey(business, name), WantedFor(name, grantsOf, index);
    var had := Granted(s, key);
    if |had| <= 500 || had <= wanted {
      forall answer | LimitedAnswer(answer)
        ensures Granted(Reconcile(s, business, names, grantsOf, index, answer), key) == wanted
      {
        ReconciledExactlyWhen(s, business, names, grantsOf, index, answer, name);
        FullAnswer(answer, had);
      }
    } else {
      var stale :| stale in had && stale !in wanted;
      var answer := Hiding(stale);
      ReconciledExactlyWhen(s, business, names, grantsOf, index, answer, name);
      assert stale in had - answer(had);
      assert Granted(Reconcile(s, business, names, grantsOf, index, answer), key) != wanted;
    }
  }

  // Said of the rows themselves: a named role has the permission `p` exactly when the index gives `p` for one
  // of the codes that its name is granted.
  lemma GrantRowsExactly(s: Store, business: string, names: seq<string>, grantsOf: map<string, set<Code>>,
                         index: map<string, Id>, answer: set<Id> -> set<Id>, name: string, p: Id)
    requires Valid(s) && LimitedAnswer(answer) && name in names
    requires |Granted(s, RoleKey(business, name))| <= 500
    ensures var s' := Reconcile(s, business, names, grantsOf, index, answer); var key := RoleKey(business, name);
            && key in s'.roles
            && (Grant(s'.roles[key], p) in s'.grants <==>
                  name in grantsOf &&
                  exists code :: code in grantsOf[name] && code.resource + "." + code.action in index &&
                                 index[code.resource + "." + code.action] == p)
  {
    hide Reconcile, LimitedAnswer, Valid;
    ReconciledGrants(s, business, names, grantsOf, index, answer, name);
    ReconciledUpToLimit(s, business, names, grantsOf, index, answer, name);
    var s' := Reconcile(s, business, names, grantsOf, index, answer);
    GrantedRow(s', RoleKey(business, name), p);
    WantedRow(name, grantsOf, index, p);
  }

  lemma GrantedRow(s: Store, key: RoleKey, p: Id)
    requires key in s.roles
    ensures p in Granted(s, key) <==> Grant(s.roles[key], p) in s.grants
  {
    if Grant(s.roles[key], p) in s.grants {
      var g := Grant(s.roles[key], p);
      assert g.permission == p && g.role == s.roles[key];
    }
  }

  lemma WantedRow(name: string, grantsOf: map<string, set<Code>>, index: map<string, Id>, p: Id)
    ensures p in WantedFor(name, grantsOf, index) <==>
            name in grantsOf &&
            exists code :: code in grantsOf[name] && code.resource + "." + code.action in index &&
                           index[code.resource + "." + code.action] == p
  {
    if name in grantsOf {
      if code :| code in grantsOf[name] && code.resource + "." + code.action in index &&
                 index[code.resource + "." + code.action] == p {
        assert Dotted(code) in index && index[Dotted(code)] == p;
      }
      if p in WantedIds(grantsOf[name], index) {
        var code :| code in grantsOf[name] && Dotted(code) in index && index[Dotted(code)] == p;
        assert code.resource + "." + code.action in index;
      }
    }
  }

  // Beyond it, more than 500 stale grants always leave some behind.
  lemma TooManyStaleGrantsStay(s: Store, business: string, names: seq<string>, grantsOf: map<string, set<Code>>,
                               index: map<string, Id>, answer: set<Id> -> set<Id>, name: string)
    requires Valid(s) && LimitedAnswer(answer) && Distinct(names) && name in names
    requires |Granted(s, RoleKey(business, name)) - WantedFor(name, grantsOf, index)| > 500
    ensures Granted(Reconcile(s, business, names, grantsOf, index, answer), RoleKey(business, name)) !=
            WantedFor(name, grantsOf, index)
  {
    var had, wanted := Granted(s, RoleKey(business, name)), WantedFor(name, grantsOf, index);
    ReconciledExactlyWhen(s, business, names, grantsOf, index, answer, name);
    FullAnswer(answer, had);
    if had - answer(had) <= wanted {
      SubsetSize(had - wanted, answer(had));
    }
  }

  // Roles that are not named keep their grants.
  lemma {:induction false} OtherRolesUntouched(s: Store, business: string, names: seq<string>,
                                               grantsOf: map<string, set<Code>>, index: map<string, Id>,
                                               answer: set<Id> -> set<Id>, role: Id)
    requires Valid(s) && LimitedAnswer(answer) && role < s.nextId
    requires forall name :: name in names && RoleKey(business, name) in s.roles ==>
               s.roles[RoleKey(business, name)] != role
    ensures Permissions(Reconcile(s, business, names, grantsOf, index, answer).grants, role) ==
            Permissions(s.grants, role)
  {
    OthersWhileVisiting(s, business, names, grantsOf, index, answer, role);
    var p := VisitAll(s, business, names, grantsOf, index, answer);
    PermissionsAfterInsert(p.store.grants, p.docs, role);
  }

  lemma {:induction false} OthersWhileVisiting(s: Store, business: string, names: seq<string>,
                                               grantsOf: map<string, set<Code>>, index: map<string, Id>,
                                               answer: set<Id> -> set<Id>, role: Id)
    requires Valid(s) && LimitedAnswer(answer) && role < s.nextId
    requires forall name :: name in names && RoleKey(business, name) in s.roles ==>
               s.roles[RoleKey(business, name)] != role
    ensures var p := VisitAll(s, business, names, grantsOf, index, answer);
            && Sound(p) && s.nextId <= p.store.nextId
            && (forall key :: key in p.store.roles ==> key in s.roles || p.store.roles[key] >= s.nextId)
            && Permissions(p.store.grants, role) == Permissions(s.grants, role)
            && Permissions(p.docs, role) == {}
  {
    if names != [] {
      var front, name := names[..|names| - 1], names[|names| - 1];
      OthersWhileVisiting(s, business, front, grantsOf, index, answer, role);
      var p, key := VisitAll(s, business, front, grantsOf, index, answer), RoleKey(business, name);
      VisitActs(p, key, WantedFor(name, grantsOf, index), answer, role);
      if key in s.roles {
        VisitAllKeepsIds(s, business, front, grantsOf, index, answer, key);
      }
    }
  }

  // A run changes nothing if and only if every named role exists, has all it wants and nothing stale in sight.
  ghost predicate Settled(s: Store, business: string, names: seq<string>, grantsOf: map<string, set<Code>>,
                          index: map<string, Id>, answer: set<Id> -> set<Id>)
  {
    forall name :: name in names ==>
      var key, wanted := RoleKey(business, name), WantedFor(name, grantsOf, index);
      key in s.roles && answer(Granted(s, key)) <= wanted <= Granted(s, key)
  }

  lemma NoChangeExactly(s: Store, business: string, names: seq<string>, grantsOf: map<string, set<Code>>,
                        index: map<string, Id>, answer: set<Id> -> set<Id>)
    requires Valid(s) && LimitedAnswer(answer)
    ensures Reconcile(s, business, names, grantsOf, index, answer) == s <==>
            Settled(s, business, names, grantsOf, index, answer)
  {
    if Reconcile(s, business, names, grantsOf, index, answer) == s {
      forall name | name in names
        ensures var key, wanted := RoleKey(business, name), WantedFor(name, grantsOf, index);
                key in s.roles && answer(Granted(s, key)) <= wanted <= Granted(s, key)
      {
        ReconciledGrants(s, business, names, grantsOf, index, answer, name);
      }
    }
    if Settled(s, business, names, grantsOf, index, answer) {
      SettledVisits(s, business, names, grantsOf, index, answer);
    }
  }

  lemma {:induction false} SettledVisits(s: Store, business: string, names: seq<string>,
                                         grantsOf: map<string, set<Code>>, index: map<string, Id>,
                                         answer: set<Id> -> set<Id>)
    requires Settled(s, business, names, grantsOf, index, answer)
    ensures VisitAll(s, business, names, grantsOf, index, answer).store == s
    ensures VisitAll(s, business, names, grantsOf, index, answer).docs <= s.grants
  {
    if names != [] {
      var front, name := names[..|names| - 1], names[|names| - 1];
      assert name in names;
      SettledVisits(s, business, front, grantsOf, index, answer);
      var key, wanted := RoleKey(business, name), WantedFor(name, grantsOf, index);
      var existing := answer(Granted(s, key));
      assert existing - wanted == {};
      assert s.grants - GrantsFor(s.roles[key], {}) == s.grants;
      forall g | g in GrantsFor(s.roles[key], wanted - existing) ensures g in s.grants {
        assert g.permission in Granted(s, key);
      }
    }
  }

  // A second run, up to the limit, deletes nothing and inserts nothing.
  lemma SecondRunChangesNothing(s: Store, business: string, names: seq<string>, grantsOf: map<string, set<Code>>,
                                index: map<string, Id>, answer: set<Id> -> set<Id>)
    requires Valid(s) && LimitedAnswer(answer)
    requires forall name :: name in names ==> |Granted(s, RoleKey(business, name))| <= 500
    ensures var s' := Reconcile(s, business, names, grantsOf, index, answer);
            Reconcile(s', business, names, grantsOf, index, answer) == s'
  {
    var s' := Reconcile(s, business, names, grantsOf, index, answer);
    if names == [] {
      assert s' == s;
    } else {
      ReconciledGrants(s, business, names, grantsOf, index, answer, names[0]);
    }
    forall name | name in names
      ensures var key, wanted := RoleKey(business, name), WantedFor(name, grantsOf, index);
              key in s'.roles && answer(Granted(s', key)) <= wanted <= Granted(s', key)
    {
      ReconciledGrants(s, business, names, grantsOf, index, answer, name);
      ReconciledUpToLimit(s, business, names, grantsOf, index, answer, name);
      assert answer(Granted(s', RoleKey(business, name))) <= Granted(s', RoleKey(business, name));
    }
    NoChangeExactly(s', business, names, grantsOf, index, answer);
  }

  // ---------- the bulk path ----------

  lemma {:induction false} InsertedRoles(s: Store, business: string, names: seq<string>)
    requires InsertRoles(s.roles, business, names, s.nextId).1
    ensures var roles := InsertRoles(s.roles, business, names, s.nextId).0;
            && (forall i :: 0 <= i < |names| ==>
                  RoleKey(business, names[i]) in roles && roles[RoleKey(business, names[i])] == s.nextId + i)
            && (forall key :: key in roles ==> key in s.roles || (key.business == business && key.name in names))
            && (forall key :: key in s.roles ==> key in roles)
    ensures Distinct(names) && NoRoleYet(s, business, names)
  {
    if names != [] {
      var front, name := names[..|names| - 1], names[|names| - 1];
      InsertedRoles(s, business, front);
      assert names == front + [name];
    }
  }

  lemma {:induction false} InsertRolesExactly(s: Store, business: string, names: seq<string>)
    ensures InsertRoles(s.roles, business, names, s.nextId).1 <==> Distinct(names) && NoRoleYet(s, business, names)
  {
    if InsertRoles(s.roles, business, names, s.nextId).1 {
      InsertedRoles(s, business, names);
    } else if names != [] && Distinct(names) && NoRoleYet(s, business, names) {
      var front, name := names[..|names| - 1], names[|names| - 1];
      assert Distinct(front) && NoRoleYet(s, business, front) && name !in front;
      InsertRolesExactly(s, business, front);
      InsertedRoles(s, business, front);
    }
  }

  // The first name that cannot be inserted: a role has it already, or an earlier name is the same.
  ghost predicate StopsAt(s: Store, business: string, names: seq<string>, n: nat) {
    && n < |names| && (RoleKey(business, names[n]) in s.roles || names[n] in names[..n])
    && Distinct(names[..n]) && NoRoleYet(s, business, names[..n])
  }

  ghost predicate InsertedUpTo(s: Store, roles: map<RoleKey, Id>, business: string, names: seq<string>, n: nat)
    requires n <= |names|
  {
    && (forall i :: 0 <= i < n ==>
          RoleKey(business, names[i]) in roles && roles[RoleKey(business, names[i])] == s.nextId + i)
    && (forall key :: key in s.roles ==> key in roles)
    && (forall key :: key in roles ==> key in s.roles || (key.business == business && key.name in names[..n]))
  }

  lemma {:induction false} InsertStopsAt(s: Store, business: string, names: seq<string>) returns (n: nat)
    requires !InsertRoles(s.roles, business, names, s.nextId).1
    ensures StopsAt(s, business, names, n)
    ensures InsertedUpTo(s, InsertRoles(s.roles, business, names, s.nextId).0, business, names, n)
  {
    hide StopsAt, InsertedUpTo, Distinct, NoRoleYet;
    var front, last := names[..|names| - 1], |names| - 1;
    var inserted := InsertRoles(s.roles, business, front, s.nextId);
    if inserted.1 {
      n := last;
      InsertedRoles(s, business, front);
      StopsLast(s, business, names, inserted.0);
    } else {
      n := InsertStopsAt(s, business, front);
      StopsFront(s, business, names, n, inserted.0);
    }
  }

  lemma StopsLast(s: Store, business: string, names: seq<string>, roles: map<RoleKey, Id>)
    requires names != []
    requires var front := names[..|names| - 1];
             && Distinct(front) && NoRoleYet(s, business, front)
             && (forall i :: 0 <= i < |front| ==>
                   RoleKey(business, front[i]) in roles && roles[RoleKey(business, front[i])] == s.nextId + i)
             && (forall key :: key in roles ==> key in s.roles || (key.business == business && key.name in front))
             && (forall key :: key in s.roles ==> key in roles)
    requires RoleKey(business, names[|names| - 1]) in roles
    ensures StopsAt(s, business, names, |names| - 1) && InsertedUpTo(s, roles, business, names, |names| - 1)
  {
    hide Distinct, NoRoleYet;
  }

  lemma StopsFront(s: Store, business: string, names: seq<string>, n: nat, roles: map<RoleKey, Id>)
    requires names != [] && StopsAt(s, business, names[..|names| - 1], n)
    requires InsertedUpTo(s, roles, business, names[..|names| - 1], n)
    ensures StopsAt(s, business, names, n) && InsertedUpTo(s, roles, business, names, n)
  {
    hide Distinct, NoRoleYet;
    assert names[..|names| - 1][..n] == names[..n];
  }

  // A bulk run that meets a duplicate role keeps the roles inserted before it and writes no grant.
  lemma FreshFailsAt(s: Store, business: string, names: seq<string>, grantsOf: map<string, set<Code>>,
                     index: map<string, Id>)
    returns (n: nat)
    requires Fresh(s, business, names, grantsOf, index).1 == DuplicateRole
    ensures StopsAt(s, business, names, n)
    ensures var s' := Fresh(s, business, names, grantsOf, index).0;
            InsertedUpTo(s, s'.roles, business, names, n) && s'.grants == s.grants
  {
    n := InsertStopsAt(s, business, names);
  }

  lemma {:induction false} FreshDocsAre(names: seq<string>, grantsOf: map<string, set<Code>>, index: map<string, Id>,
                                        firstId: nat, i: nat)
    requires i < |names|
    ensures Permissions(FreshDocs(names, grantsOf, index, firstId), firstId + i) == WantedFor(names[i], grantsOf, index)
  {
    var front, last := names[..|names| - 1], |names| - 1;
    var mine := GrantsFor(firstId + last, WantedFor(names[last], grantsOf, index));
    PermissionsAfterInsert(FreshDocs(front, grantsOf, index, firstId), mine, firstId + i);
    PermissionsOfDocs(firstId + last, WantedFor(names[last], grantsOf, index), firstId + i);
    if i < last {
      FreshDocsAre(front, grantsOf, index, firstId, i);
    } else {
      FreshDocsBelow(front, grantsOf, index, firstId);
    }
  }

  lemma {:induction false} FreshDocsBelow(names: seq<string>, grantsOf: map<string, set<Code>>, index: map<string, Id>,
                                          firstId: nat)
    ensures forall g :: g in FreshDocs(names, grantsOf, index, firstId) ==> firstId <= g.role < firstId + |names|
  {
    if names != [] {
      FreshDocsBelow(names[..|names| - 1], grantsOf, index, firstId);
    }
  }

  // The bulk path succeeds if and only if the names are distinct, the business has none of these roles,
  // and no role wants two codes with one permission id. The reconciling path never fails.
  lemma FreshSucceedsExactly(s: Store, business: string, names: seq<string>, grantsOf: map<string, set<Code>>,
                             index: map<string, Id>)
    ensures Fresh(s, business, names, grantsOf, index).1 == Created <==>
            && Distinct(names) && NoRoleYet(s, business, names)
            && (forall i, c1, c2 ::
                  (&& 0 <= i < |names| && names[i] in grantsOf
                   && c1 in grantsOf[names[i]] && c2 in grantsOf[names[i]]
                   && Dotted(c1) in index && Dotted(c2) in index
                   && index[Dotted(c1)] == index[Dotted(c2)]) ==> c1 == c2)
  {
    InsertRolesExactly(s, business, names);
    AllInjectiveMeans(names, grantsOf, index);
    assert forall i :: 0 <= i < |names| ==>
      CodesOf(names[i], grantsOf) == if names[i] in grantsOf then grantsOf[names[i]] else {};
  }

  lemma {:induction false} AllInjectiveMeans(names: seq<string>, grantsOf: map<string, set<Code>>,
                                             index: map<string, Id>)
    ensures AllInjective(names, grantsOf, index) <==>
            forall i :: 0 <= i < |names| ==> InjectiveOn(CodesOf(names[i], grantsOf), index)
  {
    if names != [] {
      var front := names[..|names| - 1];
      AllInjectiveMeans(front, grantsOf, index);
      assert forall i :: 0 <= i < |front| ==> front[i] == names[i];
    }
  }

  // For a business without these roles both paths leave the same roles with the same permissions, even
  // when the bulk path raises over duplicate grant documents.
  lemma BothPathsAgree(s: Store, business: string, names: seq<string>, grantsOf: map<string, set<Code>>,
                       index: map<string, Id>, answer: set<Id> -> set<Id>, name: string)
    requires Valid(s) && LimitedAnswer(answer)
    requires Distinct(names) && NoRoleYet(s, business, names) && name in names
    ensures var bulk, reconciled := Fresh(s, business, names, grantsOf, index).0,
                                     Reconcile(s, business, names, grantsOf, index, answer);
            var key := RoleKey(business, name);
            && key in bulk.roles && key in reconciled.roles
            && Granted(bulk, key) == Granted(reconciled, key) == WantedFor(name, grantsOf, index)
  {
    var i :| 0 <= i < |names| && names[i] == name;
    var key := RoleKey(business, name);
    InsertRolesExactly(s, business, names);
    InsertedRoles(s, business, names);
    FreshDocsAre(names, grantsOf, index, s.nextId, i);
    PermissionsAfterInsert(s.grants, FreshDocs(names, grantsOf, index, s.nextId), s.nextId + i);
    assert Permissions(s.grants, s.nextId + i) == {};
    assert Granted(s, key) == {};
    ReconciledUpToLimit(s, business, names, grantsOf, index, answer, name);
    ReconciledGrants(s, business, names, grantsOf, index, answer, name);
  }
}
