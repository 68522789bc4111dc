/**
 Category roll-up counts of the marketplace page (frontend/components/catalog/BuyerMarketplace.tsx,
 `categoryCounts`): every product counts once for its category and once for each ancestor. Parent links
 come from data and may form cycles; the walk keeps the set of ids it has seen.

 The reference is reachability along parent links, which knows nothing of that set.
 */
module CategoryCounts {
  import opened Wrappers

  type Parents = map<string, Option<string>>

  type Counts = map<string, nat>

  // `parentOf.get(id) ?? null`, with the empty string as falsy as null.
  function Present(id: Option<string>): Option<string> {
    if id == Some("") then None else id
  }

  function Next(parents: Parents, id: string): Option<string> {
    if id in parents then Present(parents[id]) else None
  }

  // The category after `steps` parent steps, if the chain is that long.
  function Ancestor(parents: Parents, start: string, steps: nat): Option<string> {
    if steps == 0 then Present(Some(start)) else
      var before := Ancestor(parents, start, steps - 1);
      if before.None? then None else Next(parents, before.value)
  }

  ghost predicate Reaches(parents: Parents, start: string, id: string) {
    exists steps: nat :: Ancestor(parents, start, steps) == Some(id)
  }

  // How many products, each given by its category id, have `id` as their category or an ancestor of it.
  ghost function Under(parents: Parents, products: seq<string>, id: string): nat {
    if products == [] then 0 else
      Under(parents, products[..|products| - 1], id) +
      if Reaches(parents, products[|products| - 1], id) then 1 else 0
  }

  function CountOf(counts: Counts, id: string): nat {
    if id in counts then counts[id] else 0
  }

  // ---------- the walk ----------

  // The ids within fewer than `steps` steps.
  ghost function Visited(parents: Parents, start: string, steps: nat): set<string> {
    if steps == 0 then {} else
      var last := Ancestor(parents, start, steps - 1);
      Visited(parents, start, steps - 1) + if last.Some? then {last.value} else {}
  }

  lemma {:induction false} VisitedAt(parents: Parents, start: string, steps: nat, id: string) returns (k: nat)
    requires id in Visited(parents, start, steps)
    ensures k < steps && Ancestor(parents, start, k) == Some(id)
  {
    if id in Visited(parents, start, steps - 1) {
      k := VisitedAt(parents, start, steps - 1, id);
    } else {
      k := steps - 1;
    }
  }

  lemma {:induction false} AtVisited(parents: Parents, start: string, steps: nat, k: nat)
    requires k < steps && Ancestor(parents, start, k).Some?
    ensures Ancestor(parents, start, k).value in Visited(parents, start, steps)
  {
    if k < steps - 1 {
      AtVisited(parents, start, steps - 1, k);
    }
  }

  // The chain has ended, or is about to show an id again.
  ghost predicate Exhausted(parents: Parents, start: string, steps: nat, at: Option<string>) {
    at.None? || at.value in Visited(parents, start, steps)
  }

  // From there on it never shows a new one.
  lemma {:induction false} NothingNew(parents: Parents, start: string, steps: nat, k: nat)
    requires Exhausted(parents, start, steps, Ancestor(parents, start, steps)) && k >= steps
    ensures Exhausted(parents, start, steps, Ancestor(parents, start, k))
  {
    if k > steps {
      NothingNew(parents, start, steps, k - 1);
      var before := Ancestor(parents, start, k - 1);
      if before.Some? {
        var again := VisitedAt(parents, start, steps, before.value);
        assert Ancestor(parents, start, again + 1) == Next(parents, before.value);
        if again + 1 < steps && Ancestor(parents, start, again + 1).Some? {
          AtVisited(parents, start, steps, again + 1);
        }
      }
    }
  }

  lemma ReachableIsVisited(parents: Parents, start: string, steps: nat, id: string)
    requires Exhausted(parents, start, steps, Ancestor(parents, start, steps))
    requires Reaches(parents, start, id)
    ensures id in Visited(parents, start, steps)
  {
    var k: nat :| Ancestor(parents, start, k) == Some(id);
    if k >= steps {
      NothingNew(parents, start, steps, k);
    } else {
      AtVisited(parents, start, steps, k);
    }
  }

  lemma VisitedIsReachable(parents: Parents, start: string, steps: nat)
    requires Exhausted(parents, start, steps, Ancestor(parents, start, steps))
    ensures forall id :: id in Visited(parents, start, steps) <==> Reaches(parents, start, id)
  {
    forall id | id in Visited(parents, start, steps) ensures Reaches(parents, start, id) {
      var k := VisitedAt(parents, start, steps, id);
    }
    forall id | Reaches(parents, start, id) ensures id in Visited(parents, start, steps) {
      ReachableIsVisited(parents, start, steps, id);
    }
  }

  method CategoryCounts(parents: Parents, products: seq<string>) returns (counts: Counts)
    ensures forall id :: (if id in counts then counts[id] else 0) == Under(parents, products, id)
    ensures forall id :: id in counts <==> Under(parents, products, id) > 0
  {
    counts := map[];
    for p := 0 to |products|
      invariant forall id :: CountOf(counts, id) == Under(parents, products[..p], id)
      invariant forall id :: id in counts ==> counts[id] > 0
    {
      ghost var before := counts;
      var start := products[p];
      var id: Option<string> := Some(start);
      var seen: set<string> := {};
      ghost var steps: nat := 0;
      while id.Some? && id.value != "" && id.value !in seen
        invariant Present(id) == Ancestor(parents, start, steps)
        invariant seen == Visited(parents, start, steps)
        invariant forall k :: CountOf(counts, k) == CountOf(before, k) + if k in seen then 1 else 0
        invariant forall k :: k in counts ==> counts[k] > 0
        decreases parents.Keys - seen, id.Some?
      {
        seen := seen + {id.value};
        counts := counts[id.value := CountOf(counts, id.value) + 1];
        steps := steps + 1;
        id := if id.value in parents then parents[id.value] else None;
      }
      VisitedIsReachable(parents, start, steps);
      assert products[..p + 1][..p] == products[..p];
    }
    assert products[..|products|] == products;
  }

  // ---------- consequences ----------

  lemma {:induction false} AncestorFrom(parents: Parents, a: string, b: string, steps: nat, more: nat)
    requires Ancestor(parents, a, steps) == Some(b)
    ensures Ancestor(parents, a, steps + more) == Ancestor(parents, b, more)
  {
    if more > 0 {
      AncestorFrom(parents, a, b, steps, more - 1);
    } else {
      AncestorNotEmpty(parents, a, steps);
    }
  }

  lemma {:induction false} AncestorNotEmpty(parents: Parents, a: string, steps: nat)
    ensures Ancestor(parents, a, steps) != Some("")
  {
  }

  lemma ReachesTransitive(parents: Parents, a: string, b: string, c: string)
    requires Reaches(parents, a, b) && Reaches(parents, b, c)
    ensures Reaches(parents, a, c)
  {
    var k: nat :| Ancestor(parents, a, k) == Some(b);
    var l: nat :| Ancestor(parents, b, l) == Some(c);
    AncestorFrom(parents, a, b, k, l);
  }

  // An ancestor never counts fewer products than a category below it.
  lemma {:induction false} AncestorCountsMore(parents: Parents, products: seq<string>, child: string, ancestor: string)
    requires Reaches(parents, child, ancestor)
    ensures Under(parents, products, child) <= Under(parents, products, ancestor)
  {
    if products != [] {
      var p := products[|products| - 1];
      AncestorCountsMore(parents, products[..|products| - 1], child, ancestor);
      if Reaches(parents, p, child) {
        ReachesTransitive(parents, p, child, ancestor);
      }
    }
  }

  // In particular a parent; and the members of a cycle, which reach each other, count the same.
  lemma ParentAndCycleCounts(parents: Parents, products: seq<string>, a: string, b: string)
    requires a != ""
    ensures Next(parents, a) == Some(b) ==> Under(parents, products, a) <= Under(parents, products, b)
    ensures Reaches(parents, a, b) && Reaches(parents, b, a) ==>
              Under(parents, products, a) == Under(parents, products, b)
  {
    if Next(parents, a) == Some(b) {
      assert Ancestor(parents, a, 0) == Some(a);
      assert Ancestor(parents, a, 1) == Some(b);
      AncestorCountsMore(parents, products, a, b);
    }
    if Reaches(parents, a, b) && Reaches(parents, b, a) {
      AncestorCountsMore(parents, products, a, b);
      AncestorCountsMore(parents, products, b, a);
    }
  }

  // ---------- what the chain ends add up to ----------

  ghost predicate Ends(parents: Parents, start: string) {
    exists steps: nat :: Ancestor(parents, start, steps).None?
  }

  ghost predicate IsEnd(parents: Parents, id: string) {
    id != "" && Next(parents, id).None?
  }

  // The products with a category whose chain of parents ends.
  ghost function Ending(parents: Parents, products: seq<string>): nat {
    if products == [] then 0 else
      var p := products[|products| - 1];
      Ending(parents, products[..|products| - 1]) + if p != "" && Ends(parents, p) then 1 else 0
  }

  function WithCategory(products: seq<string>): nat {
    if products == [] then 0 else
      WithCategory(products[..|products| - 1]) + if products[|products| - 1] != "" then 1 else 0
  }

  ghost function SumUnder(parents: Parents, products: seq<string>, ids: seq<string>): nat {
    if ids == [] then 0 else
      SumUnder(parents, products, ids[..|ids| - 1]) + Under(parents, products, ids[|ids| - 1])
  }

  ghost function ReachedAmong(parents: Parents, p: string, ids: seq<string>): nat {
    if ids == [] then 0 else
      ReachedAmong(parents, p, ids[..|ids| - 1]) + if Reaches(parents, p, ids[|ids| - 1]) then 1 else 0
  }

  lemma {:induction false} SumUnderAppend(parents: Parents, products: seq<string>, p: string, ids: seq<string>)
    ensures SumUnder(parents, products + [p], ids) == SumUnder(parents, products, ids) + ReachedAmong(parents, p, ids)
  {
    if ids != [] {
      SumUnderAppend(parents, products, p, ids[..|ids| - 1]);
      assert (products + [p])[..|products|] == products;
    }
  }

  // All the ends of all the chains, each listed once.
  ghost predicate ListsEnds(parents: Parents, ids: seq<string>) {
    && (forall i, j :: 0 <= i < j < |ids| ==> ids[i] != ids[j])
    && (forall id :: id in ids ==> IsEnd(parents, id))
  }

  lemma {:induction false} NoneAfterNone(parents: Parents, start: string, steps: nat, more: nat)
    requires Ancestor(parents, start, steps).None?
    ensures Ancestor(parents, start, steps + more).None?
  {
    if more > 0 {
      NoneAfterNone(parents, start, steps, more - 1);
    }
  }

  // A chain has one end at most.
  lemma OneEnd(parents: Parents, p: string, a: string, b: string)
    requires Reaches(parents, p, a) && Reaches(parents, p, b) && IsEnd(parents, a) && IsEnd(parents, b)
    ensures a == b && Ends(parents, p)
  {
    var k: nat :| Ancestor(parents, p, k) == Some(a);
    var l: nat :| Ancestor(parents, p, l) == Some(b);
    assert Ancestor(parents, p, k + 1).None? && Ancestor(parents, p, l + 1).None?;
    if k < l {
      NoneAfterNone(parents, p, k + 1, l - k - 1);
    } else if l < k {
      NoneAfterNone(parents, p, l + 1, k - l - 1);
    }
  }

  // A chain that ends reaches its end.
  lemma {:induction false} ReachesEnd(parents: Parents, p: string, steps: nat) returns (end: string)
    requires p != "" && Ancestor(parents, p, steps).None?
    ensures Reaches(parents, p, end) && IsEnd(parents, end)
  {
    if Ancestor(parents, p, steps - 1).None? {
      end := ReachesEnd(parents, p, steps - 1);
    } else {
      end := Ancestor(parents, p, steps - 1).value;
      AncestorNotEmpty(parents, p, steps - 1);
    }
  }

  lemma {:induction false} ReachesOneOf(parents: Parents, p: string, ids: seq<string>)
    requires ListsEnds(parents, ids)
    ensures ReachedAmong(parents, p, ids) == if exists id :: id in ids && Reaches(parents, p, id) then 1 else 0
  {
    if ids != [] {
      var front, last := ids[..|ids| - 1], ids[|ids| - 1];
      ReachesOneOf(parents, p, front);
      assert ids == front + [last];
      if Reaches(parents, p, last) {
        forall id | id in front ensures !Reaches(parents, p, id) {
          if Reaches(parents, p, id) {
            OneEnd(parents, p, id, last);
          }
        }
      }
    }
  }

  // The counts of the chain ends add up to the number of products whose chain ends, in any parent map.
  lemma {:induction false} EndCountsSum(parents: Parents, products: seq<string>, ids: seq<string>)
    requires ListsEnds(parents, ids)
    requires forall id, i :: 0 <= i < |products| && IsEnd(parents, id) && Reaches(parents, products[i], id) ==>
               id in ids
    ensures SumUnder(parents, products, ids) == Ending(parents, products)
  {
    if products == [] {
      SumUnderNothing(parents, ids);
    } else {
      var front, p := products[..|products| - 1], products[|products| - 1];
      EndCountsSum(parents, front, ids);
      assert front + [p] == products;
      SumUnderAppend(parents, front, p, ids);
      ReachesOneOf(parents, p, ids);
      if p == "" {
        EmptyReachesNothing(parents);
      } else if Ends(parents, p) {
        var steps: nat :| Ancestor(parents, p, steps).None?;
        var end := ReachesEnd(parents, p, steps);
        assert products[|products| - 1] == p;
      } else if exists id :: id in ids && Reaches(parents, p, id) {
        var id :| id in ids && Reaches(parents, p, id);
        OneEnd(parents, p, id, id);
      }
    }
  }

  lemma {:induction false} SumUnderNothing(parents: Parents, ids: seq<string>)
    ensures SumUnder(parents, [], ids) == 0
  {
    if ids != [] {
      SumUnderNothing(parents, ids[..|ids| - 1]);
    }
  }

  lemma EmptyReachesNothing(parents: Parents)
    ensures forall id :: !Reaches(parents, "", id)
  {
    forall steps: nat ensures Ancestor(parents, "", steps).None? {
      NoneAfterNone(parents, "", 0, steps);
    }
  }

  // They add up to all products that have a category exactly when no such product is caught in a cycle,
  // so always in an acyclic map.
  lemma {:induction false} EndingIsAllExactly(parents: Parents, products: seq<string>)
    ensures Ending(parents, products) <= WithCategory(products)
    ensures Ending(parents, products) == WithCategory(products) <==>
            forall i :: 0 <= i < |products| && products[i] != "" ==> Ends(parents, products[i])
  {
    if products != [] {
      var front := products[..|products| - 1];
      EndingIsAllExactly(parents, front);
      assert products == front + [products[|products| - 1]];
      assert forall i :: 0 <= i < |front| ==> front[i] == products[i];
    }
  }

  lemma EndCountsAreAllExactly(parents: Parents, products: seq<string>, ids: seq<string>)
    requires ListsEnds(parents, ids)
    requires forall id, i :: 0 <= i < |products| && IsEnd(parents, id) && Reaches(parents, products[i], id) ==>
               id in ids
    ensures SumUnder(parents, products, ids) == WithCategory(products) <==>
            forall i :: 0 <= i < |products| && products[i] != "" ==> Ends(parents, products[i])
  {
    EndCountsSum(parents, products, ids);
    EndingIsAllExactly(parents, products);
  }
}
