/**
 The one-off category migration (frontend/scripts/_upsert_platform_categories.py): `main` brings the
 category rows to the wanted list, renames or merges legacy rows, repoints products, and deactivates
 the rest. Slugs are unique (backend/app/db/indexes.py).

 The meaning of the three loops is one map on slugs, `MappedSlug`.
 */
module CategoryMigration {
  import opened Wrappers

  type Id = nat

  datatype Spec = Spec(slug: string, name: string, description: string, order: int, image: string)

  // One item of the LEGACY_SLUGS dictionary.
  datatype Legacy = Legacy(former: string, target: string)

  datatype Category = Category(
    slug: string, name: string, description: string, order: int, image: string,
    parent: Option<Id>, active: bool, createdAt: int, updatedAt: int)

  datatype Product = Product(category: Id, updatedAt: int)

  datatype Db = Db(categories: map<Id, Category>, products: map<Id, Product>, nextId: nat)

  // ---------- tables ----------

  function SlugsOf(specs: seq<Spec>): set<string> {
    if specs == [] then {} else SlugsOf(specs[..|specs| - 1]) + {specs[|specs| - 1].slug}
  }

  function Target(legacy: seq<Legacy>, slug: string): Option<string> {
    if legacy == [] then None
    else if legacy[0].former == slug then Some(legacy[0].target)
    else Target(legacy[1..], slug)
  }

  // Where a slug moves to, if the dictionary names another slug for it.
  function Moves(legacy: seq<Legacy>, slug: string): Option<string> {
    if Target(legacy, slug) == Some(slug) then None else Target(legacy, slug)
  }

  // What the migration is assumed to be given: distinct wanted slugs, a dictionary (distinct keys), and no
  // wanted slug that the dictionary moves elsewhere.
  ghost predicate Consistent(specs: seq<Spec>, legacy: seq<Legacy>) {
    && (forall i, j :: 0 <= i < j < |specs| ==> specs[i].slug != specs[j].slug)
    && (forall i, j :: 0 <= i < j < |legacy| ==> legacy[i].former != legacy[j].former)
    && (forall i :: 0 <= i < |legacy| && legacy[i].former != legacy[i].target ==> legacy[i].former !in SlugsOf(specs))
  }

  function Payload(spec: Spec, createdAt: int, now: int): Category {
    Category(spec.slug, spec.name, spec.description, spec.order, spec.image, None, true, createdAt, now)
  }

  // ---------- the map on slugs ----------

  // Legacy slugs of the wanted slug `wanted` are tried in dictionary order; the first that has a row is renamed.
  function Renamed(slugs: set<string>, legacy: seq<Legacy>, wanted: string): Option<string> {
    if legacy == [] then None
    else if legacy[0].target == wanted && legacy[0].former != wanted && legacy[0].former in slugs
    then Some(legacy[0].former)
    else Renamed(slugs, legacy[1..], wanted)
  }

  // The slug a row with slug `slug` has once the specs with slugs `done` are in place.
  function RowSlug(slugs: set<string>, done: set<string>, legacy: seq<Legacy>, slug: string): string {
    var to := Moves(legacy, slug);
    if to.Some? && to.value in done && to.value !in slugs && Renamed(slugs, legacy, to.value) == Some(slug)
    then to.value else slug
  }

  // What becomes of the category slug of a product.
  function MappedSlug(wanted: set<string>, legacy: seq<Legacy>, slug: string): string {
    var to := Moves(legacy, slug);
    if to.Some? && to.value in wanted then to.value else slug
  }

  // ---------- rows ----------

  // A dictionary entry with a row from which the wanted slug can be taken.
  ghost predicate TakesFrom(c: map<Id, Category>, entry: Legacy, wanted: string) {
    entry.target == wanted && entry.former != wanted && exists id :: id in c && c[id].slug == entry.former
  }

  // The first such entry.
  ghost predicate IsFirst(c: map<Id, Category>, legacy: seq<Legacy>, wanted: string, i: int) {
    && 0 <= i < |legacy| && TakesFrom(c, legacy[i], wanted)
    && forall k :: 0 <= k < i ==> !TakesFrom(c, legacy[k], wanted)
  }

  function Slugs(categories: map<Id, Category>): set<string> {
    set id | id in categories :: categories[id].slug
  }

  ghost predicate UniqueSlugs(categories: map<Id, Category>) {
    forall a, b :: a in categories && b in categories && categories[a].slug == categories[b].slug ==> a == b
  }

  ghost predicate Valid(db: Db) {
    && UniqueSlugs(db.categories)
    && (forall id :: id in db.categories ==> id < db.nextId)
    && (forall p :: p in db.products ==> db.products[p].category < db.nextId)
  }

  // After the first loop, or a part of it, seen from the start: `before` are the slugs there were, `done`
  // the wanted slugs handled so far.

  // Rows are never removed, and each has the slug the map on slugs gives it.
  ghost predicate RowsFollow(c0: map<Id, Category>, c: map<Id, Category>, before: set<string>, done: set<string>,
                             legacy: seq<Legacy>) {
    forall id :: id in c0 ==> id in c && c[id].slug == RowSlug(before, done, legacy, c0[id].slug)
  }

  // Rows outside `done` are as they were.
  ghost predicate RowsKept(c0: map<Id, Category>, c: map<Id, Category>, done: set<string>) {
    forall id :: id in c && c[id].slug !in done ==> id in c0 && c[id] == c0[id]
  }

  // Rows are created only for slugs that had neither a row nor a legacy row.
  ghost predicate RowsNew(c0: map<Id, Category>, c: map<Id, Category>, before: set<string>, legacy: seq<Legacy>,
                          firstId: nat) {
    forall id :: id in c && id !in c0 ==>
      id >= firstId && c[id].slug !in before && Renamed(before, legacy, c[id].slug) == None
  }

  // Every handled slug has its row, with the wanted content and its creation time.
  ghost predicate RowsIndexed(c0: map<Id, Category>, c: map<Id, Category>, specs: seq<Spec>, now: int,
                              idBySlug: map<string, Id>) {
    && idBySlug.Keys == SlugsOf(specs)
    && forall spec :: spec in specs ==>
         && spec.slug in idBySlug && idBySlug[spec.slug] in c
         && var id := idBySlug[spec.slug]; c[id] == Payload(spec, if id in c0 then c0[id].createdAt else now, now)
  }

  ghost predicate Upserted(s0: Db, s: Db, specs: seq<Spec>, legacy: seq<Legacy>, now: int, idBySlug: map<string, Id>) {
    var before, done := Slugs(s0.categories), SlugsOf(specs);
    && Valid(s) && s.products == s0.products && s0.nextId <= s.nextId
    && RowsFollow(s0.categories, s.categories, before, done, legacy)
    && RowsKept(s0.categories, s.categories, done)
    && RowsNew(s0.categories, s.categories, before, legacy, s0.nextId)
    && RowsIndexed(s0.categories, s.categories, specs, now, idBySlug)
  }

  // After the second loop, seen from the end of the first: rows whose slug moved to a wanted one are merged.
  function MergeInto(legacy: seq<Legacy>, idBySlug: map<string, Id>, slug: string): Option<Id> {
    var to := Moves(legacy, slug);
    if to.Some? && to.value in idBySlug then Some(idBySlug[to.value]) else None
  }

  function MergedRow(legacy: seq<Legacy>, idBySlug: map<string, Id>, row: Category, now: int): Category {
    if MergeInto(legacy, idBySlug, row.slug).Some? then row.(active := false, updatedAt := now) else row
  }

  function MergedProduct(categories: map<Id, Category>, legacy: seq<Legacy>, idBySlug: map<string, Id>,
                         product: Product, now: int)
    : Product
  {
    if product.category in categories && MergeInto(legacy, idBySlug, categories[product.category].slug).Some?
    then Product(MergeInto(legacy, idBySlug, categories[product.category].slug).value, now)
    else product
  }

  function MergedRows(c: map<Id, Category>, legacy: seq<Legacy>, idBySlug: map<string, Id>,
                      now: int): map<Id, Category> {
    map id | id in c :: MergedRow(legacy, idBySlug, c[id], now)
  }

  function MergedProducts(c: map<Id, Category>, legacy: seq<Legacy>, idBySlug: map<string, Id>,
                          products: map<Id, Product>, now: int)
    : map<Id, Product>
  {
    map p | p in products :: MergedProduct(c, legacy, idBySlug, products[p], now)
  }

  ghost predicate Merged(s: Db, s': Db, legacy: seq<Legacy>, now: int, idBySlug: map<string, Id>) {
    && s'.nextId == s.nextId
    && s'.categories == MergedRows(s.categories, legacy, idBySlug, now)
    && s'.products == MergedProducts(s.categories, legacy, idBySlug, s.products, now)
  }

  function SweptRow(wanted: set<string>, row: Category, now: int): Category {
    if row.slug in wanted then row else row.(active := false, updatedAt := now)
  }

  ghost predicate Swept(s: Db, s': Db, wanted: set<string>, now: int) {
    && s'.nextId == s.nextId && s'.products == s.products
    && s'.categories == map id | id in s.categories :: SweptRow(wanted, s.categories[id], now)
  }

  // The three loops, with the states between them.
  ghost predicate Stages(s0: Db, s1: Db, s2: Db, s3: Db, specs: seq<Spec>, legacy: seq<Legacy>, now: int,
                         idBySlug: map<string, Id>) {
    && Upserted(s0, s1, specs, legacy, now, idBySlug)
    && Merged(s1, s2, legacy, now, idBySlug)
    && Swept(s2, s3, SlugsOf(specs), now)
  }

  ghost predicate Migrated(s0: Db, s3: Db, specs: seq<Spec>, legacy: seq<Legacy>, now: int) {
    exists s1: Db, s2: Db, idBySlug: map<string, Id> :: Stages(s0, s1, s2, s3, specs, legacy, now, idBySlug)
  }

  // ---------- lemmas about the tables ----------

  lemma {:induction false} TargetAt(legacy: seq<Legacy>, i: nat)
    requires i < |legacy|
    requires forall a, b :: 0 <= a < b < |legacy| ==> legacy[a].former != legacy[b].former
    ensures Target(legacy, legacy[i].former) == Some(legacy[i].target)
  {
    if i > 0 {
      assert legacy[1..][i - 1] == legacy[i];
      TargetAt(legacy[1..], i - 1);
    }
  }

  lemma {:induction false} TargetFrom(legacy: seq<Legacy>, slug: string)
    requires Target(legacy, slug).Some?
    ensures exists i :: 0 <= i < |legacy| && legacy[i] == Legacy(slug, Target(legacy, slug).value)
  {
    if legacy[0].former != slug {
      TargetFrom(legacy[1..], slug);
      var i :| 0 <= i < |legacy[1..]| && legacy[1..][i] == Legacy(slug, Target(legacy[1..], slug).value);
      assert legacy[i + 1] == legacy[1..][i];
    } else {
      assert legacy[0] == Legacy(slug, legacy[0].target);
    }
  }

  // A wanted slug does not move.
  lemma WantedStays(specs: seq<Spec>, legacy: seq<Legacy>, slug: string)
    requires Consistent(specs, legacy) && slug in SlugsOf(specs)
    ensures Moves(legacy, slug) == None
  {
    if Moves(legacy, slug).Some? {
      TargetFrom(legacy, slug);
    }
  }

  // A renamed slug has a row and the dictionary moves it to the wanted slug.
  lemma {:induction false} RenamedIs(slugs: set<string>, legacy: seq<Legacy>, wanted: string)
    ensures Renamed(slugs, legacy, wanted).Some? ==>
            var former := Renamed(slugs, legacy, wanted).value;
            former in slugs && former != wanted && exists i :: 0 <= i < |legacy| && legacy[i] == Legacy(former, wanted)
  {
    if legacy != [] {
      RenamedIs(slugs, legacy[1..], wanted);
      if Renamed(slugs, legacy, wanted).Some? {
        var former := Renamed(slugs, legacy, wanted).value;
        if !(legacy[0].target == wanted && legacy[0].former != wanted && legacy[0].former in slugs) {
          var i :| 0 <= i < |legacy[1..]| && legacy[1..][i] == Legacy(former, wanted);
          assert legacy[i + 1] == legacy[1..][i];
        } else {
          assert legacy[0] == Legacy(former, wanted);
        }
      }
    }
  }

  lemma {:induction false} RenamedFrom(slugs: set<string>, legacy: seq<Legacy>, wanted: string, i: nat)
    requires i <= |legacy|
    requires forall k :: 0 <= k < i ==>
               !(legacy[k].target == wanted && legacy[k].former != wanted && legacy[k].former in slugs)
    ensures Renamed(slugs, legacy, wanted) == Renamed(slugs, legacy[i..], wanted)
  {
    if i > 0 {
      RenamedFrom(slugs, legacy[1..], wanted, i - 1);
      assert legacy[1..][i - 1..] == legacy[i..];
    } else {
      assert legacy[0..] == legacy;
    }
  }

  // ---------- one step of the first pass ----------

  lemma {:induction false} SameRenamed(a: set<string>, b: set<string>, legacy: seq<Legacy>, wanted: string)
    requires forall i :: 0 <= i < |legacy| && legacy[i].target == wanted && legacy[i].former != wanted ==>
               (legacy[i].former in a <==> legacy[i].former in b)
    ensures Renamed(a, legacy, wanted) == Renamed(b, legacy, wanted)
  {
    if legacy != [] {
      assert forall i :: 0 <= i < |legacy[1..]| ==> legacy[1..][i] == legacy[i + 1];
      SameRenamed(a, b, legacy[1..], wanted);
    }
  }

  // A slug not handled, that does not move to a handled one, has a row now exactly if it had one.
  lemma RowsNotReached(c0: map<Id, Category>, c: map<Id, Category>, done: set<string>, legacy: seq<Legacy>,
                       slug: string)
    requires RowsFollow(c0, c, Slugs(c0), done, legacy) && RowsKept(c0, c, done)
    requires slug !in done
    requires Moves(legacy, slug).Some? ==> Moves(legacy, slug).value !in done
    ensures slug in Slugs(c) <==> slug in Slugs(c0)
  {
    if slug in Slugs(c0) {
      var id :| id in c0 && c0[id].slug == slug;
      assert c[id].slug == slug;
    }
  }

  lemma LookupsAsBefore(c0: map<Id, Category>, c: map<Id, Category>, specs: seq<Spec>, done: set<string>,
                        legacy: seq<Legacy>, slug: string)
    requires Consistent(specs, legacy) && slug in SlugsOf(specs) && slug !in done && done <= SlugsOf(specs)
    requires RowsFollow(c0, c, Slugs(c0), done, legacy) && RowsKept(c0, c, done)
    ensures slug in Slugs(c) <==> slug in Slugs(c0)
    ensures Renamed(Slugs(c), legacy, slug) == Renamed(Slugs(c0), legacy, slug)
  {
    WantedStays(specs, legacy, slug);
    RowsNotReached(c0, c, done, legacy, slug);
    forall i | 0 <= i < |legacy| && legacy[i].target == slug && legacy[i].former != slug
      ensures legacy[i].former in Slugs(c) <==> legacy[i].former in Slugs(c0)
    {
      TargetAt(legacy, i);
      RowsNotReached(c0, c, done, legacy, legacy[i].former);
    }
    SameRenamed(Slugs(c), Slugs(c0), legacy, slug);
  }

  // Which row a step writes: the one that has the slug, else the first legacy row, else a new one.
  ghost predicate Chosen(c: map<Id, Category>, before: set<string>, legacy: seq<Legacy>, slug: string, id: Id) {
    if slug in before then id in c && c[id].slug == slug
    else if Renamed(before, legacy, slug).Some? then id in c && c[id].slug == Renamed(before, legacy, slug).value
    else id !in c
  }

  lemma FollowStep(c0: map<Id, Category>, c: map<Id, Category>, before: set<string>, done: set<string>,
                   legacy: seq<Legacy>, id: Id, row: Category)
    requires UniqueSlugs(c0) && UniqueSlugs(c) && before == Slugs(c0)
    requires RowsFollow(c0, c, before, done, legacy) && RowsKept(c0, c, done)
    requires row.slug !in done && Moves(legacy, row.slug) == None
    requires Chosen(c, before, legacy, row.slug, id)
    requires Renamed(before, legacy, row.slug).Some? ==>
               Moves(legacy, Renamed(before, legacy, row.slug).value) == Some(row.slug)
    requires Renamed(before, legacy, row.slug).Some? ==> Renamed(before, legacy, row.slug).value !in done
    ensures RowsFollow(c0, c[id := row], before, done + {row.slug}, legacy)
    ensures row.slug !in before ==> row.slug !in Slugs(c)
  {
    var slug, former := row.slug, Renamed(before, legacy, row.slug);
    assert RowsFollow(c0, c[id := row], before, done + {slug}, legacy);
    RowsNotReached(c0, c, done, legacy, slug);
  }

  lemma UpsertStep(s0: Db, s: Db, done: seq<Spec>, spec: Spec, specs: seq<Spec>, legacy: seq<Legacy>, now: int,
                   idBySlug: map<string, Id>, id: Id, createdAt: int)
    requires Consistent(specs, legacy) && spec.slug in SlugsOf(specs)
    requires SlugsOf(done) <= SlugsOf(specs) && spec.slug !in SlugsOf(done)
    requires Valid(s0) && Upserted(s0, s, done, legacy, now, idBySlug)
    requires Chosen(s.categories, Slugs(s0.categories), legacy, spec.slug, id)
    requires if id in s.categories then createdAt == s.categories[id].createdAt else id == s.nextId && createdAt == now
    ensures Upserted(s0, Db(s.categories[id := Payload(spec, createdAt, now)], s.products,
                            if id in s.categories then s.nextId else s.nextId + 1),
                     done + [spec], legacy, now, idBySlug[spec.slug := id])
  {
    hide RowsFollow, RowsKept, RowsNew, RowsIndexed, UniqueSlugs, Renamed, Moves, Consistent, Slugs;
    var c0, c, row := s0.categories, s.categories, Payload(spec, createdAt, now);
    var before, slug := Slugs(c0), spec.slug;
    assert (done + [spec])[..|done|] == done;
    ChosenSlug(specs, done, before, legacy, slug, c, id);
    CreationKept(c0, c, before, SlugsOf(done), legacy, id, createdAt, now);
    FollowStep(c0, c, before, SlugsOf(done), legacy, id, row);
    IndexStep(c0, c, done, spec, now, idBySlug, id, row);
    KeptStep(c0, c, before, SlugsOf(done), legacy, s0.nextId, id, row);
    assert slug !in Slugs(c) || (id in c && c[id].slug == slug);
    UniqueStep(c, id, row);
  }

  lemma NothingUpserted(s: Db, legacy: seq<Legacy>, now: int)
    requires Valid(s)
    ensures Upserted(s, s, [], legacy, now, map[])
  {
  }

  lemma CreationKept(c0: map<Id, Category>, c: map<Id, Category>, before: set<string>, done: set<string>,
                     legacy: seq<Legacy>, id: Id, createdAt: int, now: int)
    requires RowsFollow(c0, c, before, done, legacy) && RowsKept(c0, c, done)
    requires if id in c then c[id].slug !in done && createdAt == c[id].createdAt else createdAt == now
    ensures createdAt == if id in c0 then c0[id].createdAt else now
  {
  }

  // The chosen row had no handled slug, and a legacy row is moved to the slug it is renamed to.
  lemma ChosenSlug(specs: seq<Spec>, done: seq<Spec>, before: set<string>, legacy: seq<Legacy>, slug: string,
                   c: map<Id, Category>, id: Id)
    requires Consistent(specs, legacy) && slug in SlugsOf(specs)
    requires SlugsOf(done) <= SlugsOf(specs) && slug !in SlugsOf(done)
    requires Chosen(c, before, legacy, slug, id)
    ensures Moves(legacy, slug) == None
    ensures var former := Renamed(before, legacy, slug);
            former.Some? ==> Moves(legacy, former.value) == Some(slug) && former.value !in SlugsOf(done)
    ensures id in c ==> c[id].slug !in SlugsOf(done)
  {
    WantedStays(specs, legacy, slug);
    RenamedIs(before, legacy, slug);
    if Renamed(before, legacy, slug).Some? {
      var i :| 0 <= i < |legacy| && legacy[i] == Legacy(Renamed(before, legacy, slug).value, slug);
      TargetAt(legacy, i);
    }
  }

  lemma KeptStep(c0: map<Id, Category>, c: map<Id, Category>, before: set<string>, done: set<string>,
                 legacy: seq<Legacy>, firstId: nat, id: Id, row: Category)
    requires RowsKept(c0, c, done) && RowsNew(c0, c, before, legacy, firstId)
    requires Chosen(c, before, legacy, row.slug, id)
    requires id in c ==> c[id].slug !in done
    requires id !in c ==> id >= firstId
    ensures RowsKept(c0, c[id := row], done + {row.slug}) && RowsNew(c0, c[id := row], before, legacy, firstId)
  {
  }

  lemma UniqueStep(c: map<Id, Category>, id: Id, row: Category)
    requires UniqueSlugs(c)
    requires row.slug !in Slugs(c) || (id in c && c[id].slug == row.slug)
    ensures UniqueSlugs(c[id := row])
  {
    forall a | a in c && c[a].slug == row.slug ensures a == id {
      assert c[a].slug in Slugs(c);
    }
  }

  lemma IndexStep(c0: map<Id, Category>, c: map<Id, Category>, done: seq<Spec>, spec: Spec, now: int,
                  idBySlug: map<string, Id>, id: Id, row: Category)
    requires RowsIndexed(c0, c, done, now, idBySlug) && spec.slug !in SlugsOf(done)
    requires row == Payload(spec, if id in c0 then c0[id].createdAt else now, now)
    requires id in c ==> c[id].slug !in SlugsOf(done)
    ensures RowsIndexed(c0, c[id := row], done + [spec], now, idBySlug[spec.slug := id])
  {
    assert (done + [spec])[..|done|] == done;
    SlugsHold(done);
  }

  lemma {:induction false} SlugsHold(specs: seq<Spec>)
    ensures forall spec :: spec in specs ==> spec.slug in SlugsOf(specs)
    ensures forall slug :: slug in SlugsOf(specs) ==> exists spec :: spec in specs && spec.slug == slug
  {
    if specs != [] {
      var front, last := specs[..|specs| - 1], specs[|specs| - 1];
      SlugsHold(front);
      assert specs == front + [last];
      assert last in specs;
      forall slug | slug in SlugsOf(specs) ensures exists spec :: spec in specs && spec.slug == slug {
        if slug in SlugsOf(front) {
          var spec :| spec in front && spec.slug == slug;
          assert spec in specs;
        }
      }
    }
  }

  // ---------- one step of the second pass ----------

  lemma {:induction false} TargetAppend(legacy: seq<Legacy>, last: Legacy, slug: string)
    ensures Target(legacy + [last], slug) ==
            if Target(legacy, slug).Some? then Target(legacy, slug)
            else if last.former == slug then Some(last.target) else None
  {
    if legacy == [] {
      assert [] + [last] == [last];
    } else {
      assert (legacy + [last])[1..] == legacy[1..] + [last];
      TargetAppend(legacy[1..], last, slug);
    }
  }

  // Rows of handled slugs do not move, and every target of a merge is such a row.
  ghost predicate IndexOk(c: map<Id, Category>, legacy: seq<Legacy>, idBySlug: map<string, Id>) {
    forall slug :: slug in idBySlug ==>
      idBySlug[slug] in c && c[idBySlug[slug]].slug == slug && Moves(legacy, slug) == None
  }

  function Repointed(products: map<Id, Product>, from: Id, to: Id, now: int): map<Id, Product> {
    map p | p in products :: if products[p].category == from then Product(to, now) else products[p]
  }

  // A dictionary entry that merges nothing.
  lemma SkipStep(c: map<Id, Category>, products: map<Id, Product>, front: seq<Legacy>, last: Legacy,
                 idBySlug: map<string, Id>, now: int)
    requires last.former == last.target || last.target !in idBySlug || last.former !in Slugs(c)
    requires Target(front, last.former).None?
    ensures MergedRows(c, front + [last], idBySlug, now) == MergedRows(c, front, idBySlug, now)
    ensures MergedProducts(c, front + [last], idBySlug, products, now) ==
            MergedProducts(c, front, idBySlug, products, now)
  {
    forall id | id in c
      ensures MergeInto(front + [last], idBySlug, c[id].slug) == MergeInto(front, idBySlug, c[id].slug)
    {
      TargetAppend(front, last, c[id].slug);
    }
  }

  // Which rows a dictionary entry newly merges: the one with its slug.
  lemma MergeIntoStep(c: map<Id, Category>, front: seq<Legacy>, last: Legacy, idBySlug: map<string, Id>, id: Id, k: Id)
    requires UniqueSlugs(c) && id in c && k in c && c[id].slug == last.former
    requires last.former != last.target && last.target in idBySlug
    requires Target(front, last.former).None?
    ensures MergeInto(front + [last], idBySlug, c[k].slug) ==
            if k == id then Some(idBySlug[last.target]) else MergeInto(front, idBySlug, c[k].slug)
    ensures k == id ==> MergeInto(front, idBySlug, c[k].slug).None?
  {
    TargetAppend(front, last, c[k].slug);
  }

  ghost predicate Merges(c: map<Id, Category>, front: seq<Legacy>, last: Legacy, idBySlug: map<string, Id>, id: Id) {
    && UniqueSlugs(c) && id in c && c[id].slug == last.former
    && last.former != last.target && last.target in idBySlug
    && Target(front, last.former).None?
    && forall slug :: slug in idBySlug ==> idBySlug[slug] != id
  }

  lemma MergeRowsStep(c: map<Id, Category>, front: seq<Legacy>, last: Legacy, idBySlug: map<string, Id>, now: int,
                      id: Id)
    requires Merges(c, front, last, idBySlug, id)
    ensures MergedRows(c, front + [last], idBySlug, now) ==
            var rows := MergedRows(c, front, idBySlug, now); rows[id := rows[id].(active := false, updatedAt := now)]
  {
    forall k | k in c
      ensures MergedRow(front + [last], idBySlug, c[k], now) ==
              var row := MergedRow(front, idBySlug, c[k], now);
              if k == id then row.(active := false, updatedAt := now) else row
    {
      MergeIntoStep(c, front, last, idBySlug, id, k);
    }
  }

  lemma MergeProductStep(c: map<Id, Category>, front: seq<Legacy>, last: Legacy, idBySlug: map<string, Id>, now: int,
                         id: Id, product: Product)
    requires Merges(c, front, last, idBySlug, id)
    ensures MergedProduct(c, front + [last], idBySlug, product, now) ==
            var merged := MergedProduct(c, front, idBySlug, product, now);
            if merged.category == id then Product(idBySlug[last.target], now) else merged
  {
    if product.category in c {
      MergeIntoStep(c, front, last, idBySlug, id, product.category);
    }
  }

  lemma MergeStep(c: map<Id, Category>, products: map<Id, Product>, front: seq<Legacy>, last: Legacy,
                  idBySlug: map<string, Id>, now: int, id: Id)
    requires Merges(c, front, last, idBySlug, id)
    ensures MergedRows(c, front + [last], idBySlug, now) ==
            var rows := MergedRows(c, front, idBySlug, now); rows[id := rows[id].(active := false, updatedAt := now)]
    ensures MergedProducts(c, front + [last], idBySlug, products, now) ==
            Repointed(MergedProducts(c, front, idBySlug, products, now), id, idBySlug[last.target], now)
  {
    MergeRowsStep(c, front, last, idBySlug, now, id);
    forall p | p in products {
      MergeProductStep(c, front, last, idBySlug, now, id, products[p]);
    }
  }

  // A row that moves is nobody's target.
  lemma MovingRowIsNoTarget(c: map<Id, Category>, front: seq<Legacy>, last: Legacy, idBySlug: map<string, Id>, id: Id)
    requires IndexOk(c, front + [last], idBySlug) && id in c && c[id].slug == last.former != last.target
    requires Target(front, last.former).None?
    ensures forall slug :: slug in idBySlug ==> idBySlug[slug] != id
  {
    TargetAppend(front, last, last.former);
  }

  lemma {:induction false} TargetInPrefix(legacy: seq<Legacy>, m: nat)
    requires m < |legacy|
    requires forall a, b :: 0 <= a < b < |legacy| ==> legacy[a].former != legacy[b].former
    ensures Target(legacy[..m], legacy[m].former).None?
  {
    if Target(legacy[..m], legacy[m].former).Some? {
      TargetFrom(legacy[..m], legacy[m].former);
    }
  }

  lemma IndexOkPrefix(c: map<Id, Category>, legacy: seq<Legacy>, m: nat, idBySlug: map<string, Id>)
    requires m <= |legacy| && IndexOk(c, legacy, idBySlug)
    requires forall a, b :: 0 <= a < b < |legacy| ==> legacy[a].former != legacy[b].former
    ensures IndexOk(c, legacy[..m], idBySlug)
  {
    forall slug | slug in idBySlug ensures Moves(legacy[..m], slug) == None {
      if Target(legacy[..m], slug).Some? {
        TargetFrom(legacy[..m], slug);
        var i :| 0 <= i < m && legacy[..m][i] == Legacy(slug, Target(legacy[..m], slug).value);
        TargetAt(legacy, i);
      }
    }
  }

  // ---------- the database, updated in place ----------

  class Database {
    var categories: map<Id, Category>
    var products: map<Id, Product>
    var nextId: nat

    function Snapshot(): Db
      reads this
    {
      Db(categories, products, nextId)
    }

    constructor (db: Db)
      ensures Snapshot() == db
    {
      categories, products, nextId := db.categories, db.products, db.nextId;
    }

    // find_one({"slug": slug})
    method FindBySlug(slug: string) returns (id: Option<Id>)
      requires UniqueSlugs(categories)
      ensures id.None? <==> slug !in Slugs(categories)
      ensures id.None? ==> forall c :: c in categories ==> categories[c].slug != slug
      ensures id.Some? ==> id.value in categories && categories[id.value].slug == slug
    {
      if c :| c in categories && categories[c].slug == slug {
        id := Some(c);
      } else {
        id := None;
      }
    }

    // The inner loop of the first pass: the first legacy row that can take the wanted slug.
    method FindLegacy(legacy: seq<Legacy>, wanted: string) returns (id: Option<Id>)
      requires UniqueSlugs(categories)
      ensures id.None? <==> Renamed(Slugs(categories), legacy, wanted).None?
      ensures id.Some? ==>
                && id.value in categories
                && Some(categories[id.value].slug) == Renamed(Slugs(categories), legacy, wanted)
      // spelled out: the row of the first entry that has one
      ensures id.None? ==> forall i :: 0 <= i < |legacy| ==> !TakesFrom(categories, legacy[i], wanted)
      ensures id.Some? ==>
                exists i :: 0 <= i < |legacy| && IsFirst(categories, legacy, wanted, i) &&
                            categories[id.value].slug == legacy[i].former
    {
      for i := 0 to |legacy|
        invariant forall k :: 0 <= k < i ==>
          !(legacy[k].target == wanted && legacy[k].former != wanted && legacy[k].former in Slugs(categories))
      {
        if legacy[i].target == wanted && legacy[i].former != wanted {
          id := FindBySlug(legacy[i].former);
          if id.Some? {
            RenamedFrom(Slugs(categories), legacy, wanted, i);
            assert IsFirst(categories, legacy, wanted, i);
            return;
          }
        }
      }
      RenamedFrom(Slugs(categories), legacy, wanted, |legacy|);
      id := None;
    }

    method UpsertWanted(specs: seq<Spec>, legacy: seq<Legacy>, now: int) returns (idBySlug: map<string, Id>)
      requires Consistent(specs, legacy) && Valid(Snapshot())
      modifies this`categories, this`nextId
      ensures Upserted(old(Snapshot()), Snapshot(), specs, legacy, now, idBySlug)
    {
      hide RowsFollow, RowsKept, RowsNew, RowsIndexed, UniqueSlugs, Slugs, Consistent, Upserted;
      idBySlug := map[];
      NothingUpserted(Snapshot(), legacy, now);
      assert specs[..0] == [];
      for n := 0 to |specs|
        invariant Upserted(old(Snapshot()), Snapshot(), specs[..n], legacy, now, idBySlug)
      {
        SlugsOfPrefix(specs, legacy, n);
        idBySlug := UpsertOne(old(Snapshot()), specs[..n], specs[n], specs, legacy, now, idBySlug);
        assert specs[..n] + [specs[n]] == specs[..n + 1];
      }
      assert specs[..|specs|] == specs;
    }

    method UpsertOne(ghost s0: Db, ghost done: seq<Spec>, spec: Spec, ghost specs: seq<Spec>, legacy: seq<Legacy>,
                     now: int, idBySlug: map<string, Id>)
      returns (index: map<string, Id>)
      requires Consistent(specs, legacy) && spec.slug in SlugsOf(specs)
      requires SlugsOf(done) <= SlugsOf(specs) && spec.slug !in SlugsOf(done)
      requires Valid(s0) && Upserted(s0, Snapshot(), done, legacy, now, idBySlug)
      modifies this`categories, this`nextId
      ensures Upserted(s0, Snapshot(), done + [spec], legacy, now, index)
    {
      hide RowsFollow, RowsKept, RowsNew, RowsIndexed, UniqueSlugs, Renamed, Consistent, TakesFrom, IsFirst;
      LookupsAsBefore(s0.categories, categories, specs, SlugsOf(done), legacy, spec.slug);
      var existing := FindBySlug(spec.slug);
      if existing.None? {
        existing := FindLegacy(legacy, spec.slug);
      }
      var id, createdAt := nextId, now;
      if existing.Some? {
        id, createdAt := existing.value, categories[existing.value].createdAt;
      }
      UpsertStep(s0, Snapshot(), done, spec, specs, legacy, now, idBySlug, id, createdAt);
      if existing.None? {
        nextId := nextId + 1;
      }
      categories := categories[id := Payload(spec, createdAt, now)];
      index := idBySlug[spec.slug := id];
    }

    method MergeLegacy(legacy: seq<Legacy>, now: int, idBySlug: map<string, Id>)
      requires forall a, b :: 0 <= a < b < |legacy| ==> legacy[a].former != legacy[b].former
      requires Valid(Snapshot()) && IndexOk(categories, legacy, idBySlug)
      modifies this`categories, this`products
      ensures Merged(old(Snapshot()), Snapshot(), legacy, now, idBySlug)
    {
      ghost var c, p := categories, products;
      for m := 0 to |legacy|
        invariant categories == MergedRows(c, legacy[..m], idBySlug, now)
        invariant products == MergedProducts(c, legacy[..m], idBySlug, p, now)
      {
        assert legacy[..m + 1] == legacy[..m] + [legacy[m]];
        TargetInPrefix(legacy, m);
        IndexOkPrefix(c, legacy, m + 1, idBySlug);
        MergeOne(c, p, legacy[..m], legacy[m], now, idBySlug);
      }
      assert legacy[..|legacy|] == legacy;
    }

    method MergeOne(ghost c: map<Id, Category>, ghost p: map<Id, Product>, ghost front: seq<Legacy>, entry: Legacy,
                    now: int, idBySlug: map<string, Id>)
      requires UniqueSlugs(c) && IndexOk(c, front + [entry], idBySlug) && Target(front, entry.former).None?
      requires categories == MergedRows(c, front, idBySlug, now)
      requires products == MergedProducts(c, front, idBySlug, p, now)
      modifies this`categories, this`products
      ensures categories == MergedRows(c, front + [entry], idBySlug, now)
      ensures products == MergedProducts(c, front + [entry], idBySlug, p, now)
    {
      SlugsUnmoved(c, front, idBySlug, now);
      if entry.former == entry.target {
        SkipStep(c, p, front, entry, idBySlug, now);
        return;
      }
      var row := FindBySlug(entry.former);
      if row.None? || entry.target !in idBySlug {
        SkipStep(c, p, front, entry, idBySlug, now);
        return;
      }
      MovingRowIsNoTarget(c, front, entry, idBySlug, row.value);
      if row.value == idBySlug[entry.target] {
        return;
      }
      MergeStep(c, p, front, entry, idBySlug, now, row.value);
      products := Repointed(products, row.value, idBySlug[entry.target], now);
      categories := categories[row.value := categories[row.value].(active := false, updatedAt := now)];
    }

    method DeactivateRest(wanted: set<string>, now: int)
      modifies this`categories
      ensures Swept(old(Snapshot()), Snapshot(), wanted, now)
    {
      ghost var c := categories;
      var rest := categories.Keys;
      while rest != {}
        invariant rest <= c.Keys
        invariant categories == map id | id in c :: if id in rest then c[id] else SweptRow(wanted, c[id], now)
      {
        var id :| id in rest;
        rest := rest - {id};
        if categories[id].slug !in wanted {
          categories := categories[id := categories[id].(active := false, updatedAt := now)];
        }
      }
    }

    method Migrate(specs: seq<Spec>, legacy: seq<Legacy>, now: int)
      requires Consistent(specs, legacy) && Valid(Snapshot())
      modifies this
      ensures Migrated(old(Snapshot()), Snapshot(), specs, legacy, now)
    {
      var idBySlug := UpsertWanted(specs, legacy, now);
      ghost var s1 := Snapshot();
      IndexOkAfter(old(Snapshot()), s1, specs, legacy, now, idBySlug);
      MergeLegacy(legacy, now, idBySlug);
      ghost var s2 := Snapshot();
      DeactivateRest(SlugsOf(specs), now);
      assert Stages(old(Snapshot()), s1, s2, Snapshot(), specs, legacy, now, idBySlug);
    }
  }

  lemma {:induction false} SlugsOfPrefix(specs: seq<Spec>, legacy: seq<Legacy>, n: nat)
    requires Consistent(specs, legacy) && n < |specs|
    ensures specs[n].slug in SlugsOf(specs) && specs[n].slug !in SlugsOf(specs[..n])
    ensures SlugsOf(specs[..n]) <= SlugsOf(specs)
  {
    SlugsHold(specs);
    SlugsHold(specs[..n]);
    assert specs[n] in specs;
    assert forall spec :: spec in specs[..n] ==> spec in specs;
  }

  lemma SlugsUnmoved(c: map<Id, Category>, legacy: seq<Legacy>, idBySlug: map<string, Id>, now: int)
    requires UniqueSlugs(c)
    ensures UniqueSlugs(MergedRows(c, legacy, idBySlug, now))
    ensures Slugs(MergedRows(c, legacy, idBySlug, now)) == Slugs(c)
  {
    var rows := MergedRows(c, legacy, idBySlug, now);
    assert forall id :: id in c ==> rows[id].slug == c[id].slug;
  }

  lemma IndexOkAfter(s0: Db, s1: Db, specs: seq<Spec>, legacy: seq<Legacy>, now: int, idBySlug: map<string, Id>)
    requires Consistent(specs, legacy) && Upserted(s0, s1, specs, legacy, now, idBySlug)
    ensures IndexOk(s1.categories, legacy, idBySlug)
  {
    SlugsHold(specs);
    forall slug | slug in idBySlug
      ensures idBySlug[slug] in s1.categories && s1.categories[idBySlug[slug]].slug == slug
      ensures Moves(legacy, slug) == None
    {
      var spec :| spec in specs && spec.slug == slug;
      WantedStays(specs, legacy, slug);
    }
  }

  // ---------- main results ----------

  // The row of a wanted slug: the wanted content, and the creation time it had if it was there before.
  ghost predicate IsRowOf(c0: map<Id, Category>, c: map<Id, Category>, spec: Spec, now: int, id: Id) {
    id in c && c[id] == Category(spec.slug, spec.name, spec.description, spec.order, spec.image, None, true,
                                 if id in c0 then c0[id].createdAt else now, now)
  }

  lemma HandledRow(s0: Db, s1: Db, specs: seq<Spec>, legacy: seq<Legacy>, now: int, idBySlug: map<string, Id>, id: Id)
    returns (spec: Spec)
    requires Upserted(s0, s1, specs, legacy, now, idBySlug)
    requires id in s1.categories && s1.categories[id].slug in SlugsOf(specs)
    ensures spec in specs && IsRowOf(s0.categories, s1.categories, spec, now, id)
  {
    SlugsHold(specs);
    spec :| spec in specs && spec.slug == s1.categories[id].slug;
    assert spec.slug in idBySlug;
  }

  lemma RowAfter(s0: Db, s1: Db, s2: Db, s3: Db, specs: seq<Spec>, legacy: seq<Legacy>, now: int,
                 idBySlug: map<string, Id>, id: Id)
    requires Consistent(specs, legacy)
    requires Stages(s0, s1, s2, s3, specs, legacy, now, idBySlug)
    requires id in s1.categories
    ensures id in s3.categories && s3.categories[id].slug == s1.categories[id].slug
    ensures s1.categories[id].slug in SlugsOf(specs) ==> s3.categories[id] == s1.categories[id]
    ensures s1.categories[id].slug !in SlugsOf(specs) ==>
              id in s0.categories && s3.categories[id] == s0.categories[id].(active := false, updatedAt := now)
  {
    hide RowsFollow, RowsNew, RowsIndexed, Consistent, Moves, SlugsOf, Valid, MergedProducts;
    var slug := s1.categories[id].slug;
    if slug in SlugsOf(specs) {
      WantedStays(specs, legacy, slug);
    }
  }

  // Only the first loop creates rows.
  lemma RowsOfStages(s0: Db, s1: Db, s2: Db, s3: Db, specs: seq<Spec>, legacy: seq<Legacy>, now: int,
                     idBySlug: map<string, Id>)
    requires Stages(s0, s1, s2, s3, specs, legacy, now, idBySlug)
    ensures s3.categories.Keys == s1.categories.Keys
  {
    hide Upserted, SlugsOf, MergedProducts, MergedRow, SweptRow;
  }

  // A row is active exactly when its slug is wanted, and then has the wanted content; any other row is an
  // old one, deactivated and otherwise as it was.
  lemma RowOutcome(s0: Db, s3: Db, specs: seq<Spec>, legacy: seq<Legacy>, now: int, id: Id)
    requires Consistent(specs, legacy) && Migrated(s0, s3, specs, legacy, now)
    requires id in s3.categories
    ensures s3.categories[id].active <==> s3.categories[id].slug in SlugsOf(specs)
    ensures s3.categories[id].active ==>
              exists spec :: spec in specs && IsRowOf(s0.categories, s3.categories, spec, now, id)
    ensures !s3.categories[id].active ==>
              id in s0.categories && s3.categories[id] == s0.categories[id].(active := false, updatedAt := now)
  {
    var s1: Db, s2: Db, idBySlug: map<string, Id> :| Stages(s0, s1, s2, s3, specs, legacy, now, idBySlug);
    assert id in s1.categories;
    RowAfter(s0, s1, s2, s3, specs, legacy, now, idBySlug, id);
    if s1.categories[id].slug in SlugsOf(specs) {
      var spec := HandledRow(s0, s1, specs, legacy, now, idBySlug, id);
      assert IsRowOf(s0.categories, s3.categories, spec, now, id);
    }
  }

  // Slugs are unique again at the end (the class keeps them unique at every write), no row is lost, and
  // every wanted slug has its row.
  lemma SlugsAfter(s0: Db, s3: Db, specs: seq<Spec>, legacy: seq<Legacy>, now: int)
    requires Consistent(specs, legacy) && Migrated(s0, s3, specs, legacy, now)
    ensures UniqueSlugs(s3.categories) && s0.categories.Keys <= s3.categories.Keys
    ensures SlugsOf(specs) <= Slugs(s3.categories)
  {
    var s1: Db, s2: Db, idBySlug: map<string, Id> :| Stages(s0, s1, s2, s3, specs, legacy, now, idBySlug);
    UpsertedSlugs(s0, s1, specs, legacy, now, idBySlug);
    SlugsStay(s1.categories, s2.categories, s3.categories, legacy, idBySlug, SlugsOf(specs), now);
  }

  lemma UpsertedSlugs(s0: Db, s1: Db, specs: seq<Spec>, legacy: seq<Legacy>, now: int, idBySlug: map<string, Id>)
    requires Upserted(s0, s1, specs, legacy, now, idBySlug)
    ensures UniqueSlugs(s1.categories) && s0.categories.Keys <= s1.categories.Keys
    ensures SlugsOf(specs) <= Slugs(s1.categories)
  {
    HandledSlugs(s0.categories, s1.categories, specs, now, idBySlug);
  }

  lemma SlugsStay(c1: map<Id, Category>, c2: map<Id, Category>, c3: map<Id, Category>, legacy: seq<Legacy>,
                  idBySlug: map<string, Id>, wanted: set<string>, now: int)
    requires UniqueSlugs(c1) && c2 == MergedRows(c1, legacy, idBySlug, now)
    requires c3 == map id | id in c2 :: SweptRow(wanted, c2[id], now)
    ensures UniqueSlugs(c3) && c3.Keys == c1.Keys && Slugs(c3) == Slugs(c1)
  {
    SlugsUnmoved(c1, legacy, idBySlug, now);
    SlugsUnswept(c2, wanted, now);
  }

  lemma HandledSlugs(c0: map<Id, Category>, c: map<Id, Category>, specs: seq<Spec>, now: int, idBySlug: map<string, Id>)
    requires RowsIndexed(c0, c, specs, now, idBySlug)
    ensures SlugsOf(specs) <= Slugs(c)
  {
    SlugsHold(specs);
    forall slug | slug in SlugsOf(specs) ensures slug in Slugs(c) {
      var spec :| spec in specs && spec.slug == slug;
      assert c[idBySlug[slug]].slug == slug;
    }
  }

  lemma SlugsUnswept(c: map<Id, Category>, wanted: set<string>, now: int)
    requires UniqueSlugs(c)
    ensures var rows := map id | id in c :: SweptRow(wanted, c[id], now); UniqueSlugs(rows) && Slugs(rows) == Slugs(c)
  {
    var rows := map id | id in c :: SweptRow(wanted, c[id], now);
    assert forall id :: id in c ==> rows[id].slug == c[id].slug;
  }

  // With a row for every wanted slug, the first loop creates and renames nothing.
  lemma NothingCreated(c0: map<Id, Category>, c: map<Id, Category>, done: set<string>, legacy: seq<Legacy>,
                       firstId: nat, id: Id)
    requires done <= Slugs(c0)
    requires RowsFollow(c0, c, Slugs(c0), done, legacy) && RowsKept(c0, c, done)
    requires RowsNew(c0, c, Slugs(c0), legacy, firstId)
    requires id in c
    ensures id in c0 && c[id].slug == c0[id].slug
  {
  }

  // Every product ends under the slug the dictionary gives its old one, if that is wanted, and otherwise
  // under its old slug. Products of no category stay as they are.
  lemma ProductOutcome(s0: Db, s3: Db, specs: seq<Spec>, legacy: seq<Legacy>, now: int, p: Id)
    requires Consistent(specs, legacy) && Valid(s0) && Migrated(s0, s3, specs, legacy, now)
    requires p in s0.products
    ensures p in s3.products
    ensures var c0, c3 := s0.products[p].category, s3.products[p].category;
            if c0 in s0.categories
            then
              && c3 in s3.categories
              && s3.categories[c3].slug == MappedSlug(SlugsOf(specs), legacy, s0.categories[c0].slug)
            else c3 == c0 && c3 !in s3.categories
    ensures var c3 := s3.products[p].category;
            s3.products[p] == if c3 == s0.products[p].category then s0.products[p] else Product(c3, now)
  {
    var s1: Db, s2: Db, idBySlug: map<string, Id> :| Stages(s0, s1, s2, s3, specs, legacy, now, idBySlug);
    var c0 := s0.products[p].category;
    IndexOkAfter(s0, s1, specs, legacy, now, idBySlug);
    if c0 in s0.categories {
      RowFollows(s0, s1, specs, legacy, now, idBySlug, c0);
      var to := MergeInto(legacy, idBySlug, s1.categories[c0].slug);
      RowAfter(s0, s1, s2, s3, specs, legacy, now, idBySlug, if to.Some? then to.value else c0);
    }
  }

  // After the first loop a row either has the mapped slug already, or moves to it next.
  lemma RowFollows(s0: Db, s1: Db, specs: seq<Spec>, legacy: seq<Legacy>, now: int, idBySlug: map<string, Id>, id: Id)
    requires Consistent(specs, legacy) && Upserted(s0, s1, specs, legacy, now, idBySlug) && id in s0.categories
    ensures id in s1.categories
    ensures var slug, to := s1.categories[id].slug, MergeInto(legacy, idBySlug, s1.categories[id].slug);
            MappedSlug(SlugsOf(specs), legacy, s0.categories[id].slug) ==
            if to.Some? then Moves(legacy, slug).value else slug
  {
    if s1.categories[id].slug != s0.categories[id].slug {
      WantedStays(specs, legacy, s1.categories[id].slug);
    }
  }

  // A slug that is a key of the dictionary is mapped to its target, if that is wanted; any other slug stays.
  // With every legacy target wanted, that is the dictionary applied to the old slug.
  lemma MappedSlugIsDictionary(specs: seq<Spec>, legacy: seq<Legacy>, slug: string)
    requires Consistent(specs, legacy)
    ensures forall i :: 0 <= i < |legacy| && legacy[i].former == slug && legacy[i].target in SlugsOf(specs) ==>
              MappedSlug(SlugsOf(specs), legacy, slug) == legacy[i].target
    ensures (forall i :: 0 <= i < |legacy| && legacy[i].former == slug ==> legacy[i].target !in SlugsOf(specs)) ==>
              MappedSlug(SlugsOf(specs), legacy, slug) == slug
    ensures (forall i :: 0 <= i < |legacy| && legacy[i].former != legacy[i].target ==>
               legacy[i].target in SlugsOf(specs)) ==>
              MappedSlug(SlugsOf(specs), legacy, slug) ==
              if Target(legacy, slug).Some? then Target(legacy, slug).value else slug
  {
    if Target(legacy, slug).Some? {
      TargetFrom(legacy, slug);
    }
    forall i | 0 <= i < |legacy| && legacy[i].former == slug ensures Target(legacy, slug) == Some(legacy[i].target) {
      TargetAt(legacy, i);
    }
  }

  lemma RenamedFirst(c: map<Id, Category>, legacy: seq<Legacy>, wanted: string, i: nat)
    requires IsFirst(c, legacy, wanted, i)
    ensures Renamed(Slugs(c), legacy, wanted) == Some(legacy[i].former)
  {
    RenamedFrom(Slugs(c), legacy, wanted, i);
    assert legacy[i..][0] == legacy[i];
  }

  // A wanted slug without a row takes the row of the first dictionary entry that has one, which keeps its id
  // and creation time.
  lemma FirstLegacyRenamed(s0: Db, s3: Db, specs: seq<Spec>, legacy: seq<Legacy>, now: int, slug: string, i: nat,
                           id: Id)
    requires Consistent(specs, legacy) && Migrated(s0, s3, specs, legacy, now)
    requires slug in SlugsOf(specs) && forall c :: c in s0.categories ==> s0.categories[c].slug != slug
    requires IsFirst(s0.categories, legacy, slug, i)
    requires id in s0.categories && s0.categories[id].slug == legacy[i].former
    ensures id in s3.categories && s3.categories[id].slug == slug
    ensures s3.categories[id].createdAt == s0.categories[id].createdAt
  {
    hide Renamed, SlugsOf, Target, Consistent, MergedRow, MergedProduct, RowsNew, RowsIndexed, RowsKept;
    var s1: Db, s2: Db, idBySlug: map<string, Id> :| Stages(s0, s1, s2, s3, specs, legacy, now, idBySlug);
    RenamedFirst(s0.categories, legacy, slug, i);
    MovesAt(specs, legacy, i);
    assert s1.categories[id].slug == slug;
    RowAfter(s0, s1, s2, s3, specs, legacy, now, idBySlug, id);
    RowOutcome(s0, s3, specs, legacy, now, id);
  }

  lemma MovesAt(specs: seq<Spec>, legacy: seq<Legacy>, i: nat)
    requires Consistent(specs, legacy) && i < |legacy| && legacy[i].former != legacy[i].target
    ensures Moves(legacy, legacy[i].former) == Some(legacy[i].target)
  {
    TargetAt(legacy, i);
  }

  // Without such an entry its row is a new one.
  lemma OtherwiseCreated(s0: Db, s3: Db, specs: seq<Spec>, legacy: seq<Legacy>, now: int, slug: string, id: Id)
    requires Consistent(specs, legacy) && Migrated(s0, s3, specs, legacy, now)
    requires slug in SlugsOf(specs) && forall c :: c in s0.categories ==> s0.categories[c].slug != slug
    requires forall i :: 0 <= i < |legacy| ==> !TakesFrom(s0.categories, legacy[i], slug)
    requires id in s3.categories && s3.categories[id].slug == slug
    ensures id !in s0.categories && s3.categories[id].createdAt == now
  {
    hide Renamed, SlugsOf, Moves, Consistent, Merged, Swept, Valid, RowsNew, RowsIndexed, RowsKept;
    var s1: Db, s2: Db, idBySlug: map<string, Id> :| Stages(s0, s1, s2, s3, specs, legacy, now, idBySlug);
    RowsOfStages(s0, s1, s2, s3, specs, legacy, now, idBySlug);
    RowAfter(s0, s1, s2, s3, specs, legacy, now, idBySlug, id);
    RowOutcome(s0, s3, specs, legacy, now, id);
    NothingRenamed(s0.categories, legacy, slug);
  }

  lemma NothingRenamed(c: map<Id, Category>, legacy: seq<Legacy>, wanted: string)
    requires forall i :: 0 <= i < |legacy| ==> !TakesFrom(c, legacy[i], wanted)
    ensures Renamed(Slugs(c), legacy, wanted) == None
  {
    RenamedIs(Slugs(c), legacy, wanted);
  }

  // And a wanted slug that has a row keeps that row.
  lemma WantedRowStays(s0: Db, s3: Db, specs: seq<Spec>, legacy: seq<Legacy>, now: int, id: Id)
    requires Consistent(specs, legacy) && Migrated(s0, s3, specs, legacy, now)
    requires id in s0.categories && s0.categories[id].slug in SlugsOf(specs)
    ensures id in s3.categories && s3.categories[id].slug == s0.categories[id].slug
    ensures s3.categories[id].createdAt == s0.categories[id].createdAt
  {
    hide Renamed, SlugsOf, Moves, Consistent, Merged, Swept, Valid, RowsNew, RowsIndexed, RowsKept, Slugs;
    var s1: Db, s2: Db, idBySlug: map<string, Id> :| Stages(s0, s1, s2, s3, specs, legacy, now, idBySlug);
    WantedStays(specs, legacy, s0.categories[id].slug);
    RowAfter(s0, s1, s2, s3, specs, legacy, now, idBySlug, id);
    RowOutcome(s0, s3, specs, legacy, now, id);
  }

  // A second run, at whatever time, leaves every category as it was but for its update time.
  lemma SecondRunRow(s0: Db, s1: Db, s2: Db, specs: seq<Spec>, legacy: seq<Legacy>, now: int, later: int, id: Id)
    requires Consistent(specs, legacy)
    requires Migrated(s0, s1, specs, legacy, now) && Migrated(s1, s2, specs, legacy, later)
    requires id in s2.categories
    ensures id in s1.categories && s2.categories[id] == s1.categories[id].(updatedAt := later)
  {
    hide Consistent, Merged, Swept, Valid, RowsFollow, RowsKept, RowsNew, RowsIndexed, UniqueSlugs, Slugs, SlugsOf;
    var t1: Db, t2: Db, idBySlug: map<string, Id> :| Stages(s1, t1, t2, s2, specs, legacy, later, idBySlug);
    SlugsAfter(s0, s1, specs, legacy, now);
    RowsOfStages(s1, t1, t2, s2, specs, legacy, later, idBySlug);
    RowAfter(s1, t1, t2, s2, specs, legacy, later, idBySlug, id);
    NothingCreated(s1.categories, t1.categories, SlugsOf(specs), legacy, s1.nextId, id);
    RowOutcome(s0, s1, specs, legacy, now, id);
    if t1.categories[id].slug in SlugsOf(specs) {
      var spec := HandledRow(s1, t1, specs, legacy, later, idBySlug, id);
      var same :| same in specs && IsRowOf(s0.categories, s1.categories, same, now, id);
      SlugNamesSpec(specs, legacy, spec, same);
    }
  }

  lemma SlugNamesSpec(specs: seq<Spec>, legacy: seq<Legacy>, a: Spec, b: Spec)
    requires Consistent(specs, legacy) && a in specs && b in specs && a.slug == b.slug
    ensures a == b
  {
    var i :| 0 <= i < |specs| && specs[i] == a;
    var j :| 0 <= j < |specs| && specs[j] == b;
    assert i == j;
  }

  // And it leaves every product exactly as it was.
  lemma SecondRunProduct(s0: Db, s1: Db, s2: Db, specs: seq<Spec>, legacy: seq<Legacy>, now: int, later: int, p: Id)
    requires Consistent(specs, legacy) && Valid(s0)
    requires Migrated(s0, s1, specs, legacy, now) && Migrated(s1, s2, specs, legacy, later)
    requires p in s1.products
    ensures p in s2.products && s2.products[p] == s1.products[p]
  {
    var t1: Db, t2: Db, idBySlug: map<string, Id> :| Stages(s1, t1, t2, s2, specs, legacy, later, idBySlug);
    var c := s1.products[p].category;
    assert p in s0.products by {
      var u1: Db, u2: Db, index: map<string, Id> :| Stages(s0, u1, u2, s1, specs, legacy, now, index);
    }
    ProductOutcome(s0, s1, specs, legacy, now, p);
    if c in t1.categories {
      RowAfter(s1, t1, t2, s2, specs, legacy, later, idBySlug, c);
      SecondRunRow(s0, s1, s2, specs, legacy, now, later, c);
      MappedStays(specs, legacy, s0.categories[s0.products[p].category].slug);
    }
  }

  // A mapped slug is not mapped further.
  lemma MappedStays(specs: seq<Spec>, legacy: seq<Legacy>, slug: string)
    requires Consistent(specs, legacy)
    ensures var to := Moves(legacy, MappedSlug(SlugsOf(specs), legacy, slug)); to.None? || to.value !in SlugsOf(specs)
  {
    var to := Moves(legacy, slug);
    if to.Some? && to.value in SlugsOf(specs) {
      WantedStays(specs, legacy, to.value);
    }
  }

  // ---------- the shipped tables ----------

  const LEGACY_SLUGS: seq<Legacy> := [
    Legacy("food-beverages", "food-beverages"), Legacy("packaged-foods", "food-beverages"),
    Legacy("electronics", "electronics-electrical"), Legacy("home-kitchen", "home-living"),
    Legacy("office-supplies", "office-supplies"), Legacy("construction", "construction-building-materials"),
    Legacy("personal-care", "personal-care-cosmetics"), Legacy("cleaning", "cleaning-hygiene"),
    Legacy("farming", "agriculture-farming"), Legacy("packaging", "packaging-supplies"),
    Legacy("hospitality-supplies", "hospitality-restaurant-supplies"), Legacy("beverages", "beverages"),
    Legacy("pantry-staples", "grains-pulses-staples"), Legacy("hardware", "construction-building-materials"),
    Legacy("stationery", "office-supplies"), Legacy("janitorial", "cleaning-hygiene"),
    Legacy("agri-inputs", "agriculture-farming")]

  // The slugs of CATEGORIES: the root categories, then the slugified subcategory names.
  const ROOT_SLUGS: seq<string> := [
    "food-beverages", "fresh-produce", "meat-poultry-seafood", "dairy-eggs", "grains-pulses-staples",
    "beverages", "packaging-supplies", "cleaning-hygiene", "personal-care-cosmetics", "textiles-garments",
    "electronics-electrical", "home-living", "office-supplies", "construction-building-materials",
    "automotive-spare-parts", "agriculture-farming", "pharmaceuticals-medical-supplies",
    "industrial-equipment-tools", "hospitality-restaurant-supplies", "pets-animal-care"]

  const SUB_SLUGS: seq<string> := [
    "bakery-confectionery", "olive-oil-honey", "fresh-fish-seafood", "poultry-butchery",
    "tea-herbal-infusions", "computers-peripherals", "phones-audio-wearables", "lighting-wiring",
    "blocks-bricks-paving", "power-hand-tools", "skin-lip-body-care", "hair-care", "desk-accessories",
    "cookware-kitchen-tools", "tableware-glassware", "home-textiles"]

  const CATEGORY_SLUGS: seq<string> := ROOT_SLUGS + SUB_SLUGS

  // The tables the script runs with meet every assumption made above.
  lemma ShippedTablesAreConsistent(specs: seq<Spec>)
    requires |specs| == |CATEGORY_SLUGS| && forall i :: 0 <= i < |specs| ==> specs[i].slug == CATEGORY_SLUGS[i]
    ensures Consistent(specs, LEGACY_SLUGS)
    ensures forall i :: 0 <= i < |LEGACY_SLUGS| ==> LEGACY_SLUGS[i].target in SlugsOf(specs)
  {
    ShippedSlugsDistinct();
    ShippedLegacyDistinct();
    ShippedTargetsWanted();
    ShippedLegacyUnwanted();
    TablesConsistent(specs, LEGACY_SLUGS, CATEGORY_SLUGS);
  }

  lemma TablesConsistent(specs: seq<Spec>, legacy: seq<Legacy>, slugs: seq<string>)
    requires |specs| == |slugs| && forall i :: 0 <= i < |specs| ==> specs[i].slug == slugs[i]
    requires forall i, j :: 0 <= i < j < |slugs| ==> slugs[i] != slugs[j]
    requires forall i, j :: 0 <= i < j < |legacy| ==> legacy[i].former != legacy[j].former
    requires forall i :: 0 <= i < |legacy| ==> legacy[i].target in slugs
    requires forall i :: 0 <= i < |legacy| && legacy[i].former != legacy[i].target ==> legacy[i].former !in slugs
    ensures Consistent(specs, legacy)
    ensures forall i :: 0 <= i < |legacy| ==> legacy[i].target in SlugsOf(specs)
  {
    SlugsHold(specs);
    forall slug ensures slug in SlugsOf(specs) <==> slug in slugs {
      if slug in SlugsOf(specs) {
        var spec :| spec in specs && spec.slug == slug;
        var i :| 0 <= i < |specs| && specs[i] == spec;
        assert slugs[i] == slug;
      }
      if slug in slugs {
        var i :| 0 <= i < |slugs| && slugs[i] == slug;
        assert specs[i] in specs;
      }
    }
  }

  lemma ShippedSlugsDistinct()
    ensures forall i, j :: 0 <= i < j < |CATEGORY_SLUGS| ==> CATEGORY_SLUGS[i] != CATEGORY_SLUGS[j]
  {
    RootsDistinct();
    SubsDistinct();
    RootsAreNotSubs();
    DistinctTogether(ROOT_SLUGS, SUB_SLUGS);
  }

  lemma RootsDistinct()
    ensures forall i, j :: 0 <= i < j < |ROOT_SLUGS| ==> ROOT_SLUGS[i] != ROOT_SLUGS[j]
  {
  }

  lemma SubsDistinct()
    ensures forall i, j :: 0 <= i < j < |SUB_SLUGS| ==> SUB_SLUGS[i] != SUB_SLUGS[j]
  {
  }

  lemma RootsAreNotSubs()
    ensures forall i, j :: 0 <= i < |ROOT_SLUGS| && 0 <= j < |SUB_SLUGS| ==> ROOT_SLUGS[i] != SUB_SLUGS[j]
  {
  }

  lemma DistinctTogether(a: seq<string>, b: seq<string>)
    requires forall i, j :: 0 <= i < j < |a| ==> a[i] != a[j]
    requires forall i, j :: 0 <= i < j < |b| ==> b[i] != b[j]
    requires forall i, j :: 0 <= i < |a| && 0 <= j < |b| ==> a[i] != b[j]
    ensures forall i, j :: 0 <= i < j < |a + b| ==> (a + b)[i] != (a + b)[j]
  {
  }

  lemma ShippedLegacyDistinct()
    ensures forall i, j :: 0 <= i < j < |LEGACY_SLUGS| ==> LEGACY_SLUGS[i].former != LEGACY_SLUGS[j].former
  {
  }

  lemma ShippedTargetsWanted()
    ensures forall i :: 0 <= i < |LEGACY_SLUGS| ==> LEGACY_SLUGS[i].target in CATEGORY_SLUGS
  {
  }

  const MOVED_SLUGS: seq<string> := [
    "packaged-foods", "electronics", "home-kitchen", "construction", "personal-care", "cleaning", "farming",
    "packaging", "hospitality-supplies", "pantry-staples", "hardware", "stationery", "janitorial", "agri-inputs"]

  lemma MovedSlugsUnwanted()
    ensures forall i, j :: 0 <= i < |MOVED_SLUGS| && 0 <= j < |CATEGORY_SLUGS| ==> MOVED_SLUGS[i] != CATEGORY_SLUGS[j]
  {
  }

  lemma MovedSlugsListed()
    ensures forall i :: 0 <= i < |LEGACY_SLUGS| ==>
              LEGACY_SLUGS[i].former == LEGACY_SLUGS[i].target || LEGACY_SLUGS[i].former in MOVED_SLUGS
  {
  }

  lemma ShippedLegacyUnwanted()
    ensures forall i :: 0 <= i < |LEGACY_SLUGS| && LEGACY_SLUGS[i].former != LEGACY_SLUGS[i].target ==>
              LEGACY_SLUGS[i].former !in CATEGORY_SLUGS
  {
    MovedSlugsUnwanted();
    MovedSlugsListed();
    NoneIn(LEGACY_SLUGS, MOVED_SLUGS, CATEGORY_SLUGS);
  }

  lemma NoneIn(legacy: seq<Legacy>, moved: seq<string>, slugs: seq<string>)
    requires forall i, j :: 0 <= i < |moved| && 0 <= j < |slugs| ==> moved[i] != slugs[j]
    requires forall i :: 0 <= i < |legacy| ==> legacy[i].former == legacy[i].target || legacy[i].former in moved
    ensures forall i :: 0 <= i < |legacy| && legacy[i].former != legacy[i].target ==> legacy[i].former !in slugs
  {
  }
}
