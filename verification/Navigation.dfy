/**
 The navigation menu (frontend/lib/navigation.ts): a tree of items, filtered by what the user may see, and
 the test for the active item. The permission test and the test of one href against the current page are
 parameters.
 */
module Navigation {
  import opened Wrappers

  datatype Submenu = NoSubmenu | Submenu(items: seq<NavItem>)

  // `title` is the source's `label`, a reserved word here.
  datatype NavItem = NavItem(
    key: string, title: string, href: string, icon: string,
    permissions: Option<seq<string>>, group: Option<string>, children: Submenu, hint: Option<string>)

  // ---------- the functions ----------

  function Children(item: NavItem): seq<NavItem> {
    if item.children.Submenu? then item.children.items else []
  }

  // No permissions, or one of them.
  predicate Allowed(item: NavItem, can: string -> bool) {
    item.permissions.None? || item.permissions.value == [] || SomeOf(item.permissions.value, can)
  }

  predicate SomeOf(codes: seq<string>, can: string -> bool) {
    exists i | 0 <= i < |codes| :: can(codes[i])
  }

  function Pruned(item: NavItem, can: string -> bool): NavItem
    decreases item, 0
  {
    match item.children
    case Submenu(items) => item.(children := Submenu(Filter(items, can)))
    case NoSubmenu => item
  }

  predicate Shown(pruned: NavItem, can: string -> bool) {
    (pruned.children.Submenu? && pruned.children.items != []) || Allowed(pruned, can)
  }

  function Filter(items: seq<NavItem>, can: string -> bool): seq<NavItem> {
    if items == [] then [] else
      var pruned := Pruned(items[|items| - 1], can);
      Filter(items[..|items| - 1], can) + if Shown(pruned, can) then [pruned] else []
  }

  // `active` says whether an href is the current page or one above it.
  predicate IsActive(item: NavItem, active: string -> bool) {
    active(item.href) || (item.children.Submenu? && SomeActive(item.children.items, active))
  }

  predicate SomeActive(items: seq<NavItem>, active: string -> bool) {
    items != [] && (SomeActive(items[..|items| - 1], active) || IsActive(items[|items| - 1], active))
  }

  // ---------- nodes of the tree ----------

  // The node at the end of a path of child positions.
  function NodeAt(item: NavItem, path: seq<nat>): Option<NavItem> {
    if path == [] then Some(item)
    else if path[0] < |Children(item)| then NodeAt(Children(item)[path[0]], path[1..])
    else None
  }

  // A node that needs no permission, or of whose permissions the user has one.
  ghost predicate SeenByItself(node: NavItem, can: string -> bool) {
    node.permissions.None? || node.permissions.value == [] || exists code :: code in node.permissions.value && can(code)
  }

  lemma AllowedIsSeen(node: NavItem, can: string -> bool)
    ensures Allowed(node, can) <==> SeenByItself(node, can)
  {
    if node.permissions.Some? {
      var codes := node.permissions.value;
      if code :| code in codes && can(code) {
        var i :| 0 <= i < |codes| && codes[i] == code;
        assert can(codes[i]);
      }
    }
  }

  // Somewhere at or below the item there is a node that the user may see by itself.
  ghost predicate Reaches(item: NavItem, can: string -> bool) {
    exists path: seq<nat> :: NodeAt(item, path).Some? && SeenByItself(NodeAt(item, path).value, can)
  }

  lemma PathBelow(item: NavItem, i: nat, path: seq<nat>)
    requires i < |Children(item)|
    ensures NodeAt(item, [i] + path) == NodeAt(Children(item)[i], path)
  {
    assert ([i] + path)[1..] == path;
  }

  lemma ReachesFrom(item: NavItem, can: string -> bool)
    ensures Reaches(item, can) <==>
            Allowed(item, can) || exists i :: 0 <= i < |Children(item)| && Reaches(Children(item)[i], can)
  {
    hide SeenByItself, Allowed;
    AllowedIsSeen(item, can);
    if SeenByItself(item, can) {
      assert NodeAt(item, []) == Some(item);
    } else if Reaches(item, can) {
      var path: seq<nat> :| NodeAt(item, path).Some? && SeenByItself(NodeAt(item, path).value, can);
      assert path != [];
      assert NodeAt(Children(item)[path[0]], path[1..]) == NodeAt(item, path);
    }
    if i :| 0 <= i < |Children(item)| && Reaches(Children(item)[i], can) {
      var child := Children(item)[i];
      var path: seq<nat> :| NodeAt(child, path).Some? && SeenByItself(NodeAt(child, path).value, can);
      PathBelow(item, i, path);
    }
  }

  // An item is kept exactly if some node at or below it may be seen.
  lemma {:induction false} KeptExactly(item: NavItem, can: string -> bool)
    ensures Shown(Pruned(item, can), can) <==> Reaches(item, can)
    decreases item, 0
  {
    hide Reaches, SomeOf;
    ReachesFrom(item, can);
    var pruned := Pruned(item, can);
    assert Allowed(pruned, can) == Allowed(item, can);
    if item.children.Submenu? {
      SomeKept(item.children.items, can);
      assert Shown(pruned, can) <==> Filter(item.children.items, can) != [] || Allowed(item, can);
      assert Children(item) == item.children.items;
    }
  }

  lemma {:induction false} SomeKept(items: seq<NavItem>, can: string -> bool)
    ensures Filter(items, can) != [] <==> exists i :: 0 <= i < |items| && Reaches(items[i], can)
  {
    if items != [] {
      var front, last := items[..|items| - 1], items[|items| - 1];
      SomeKept(front, can);
      KeptExactly(last, can);
      if i :| 0 <= i < |items| && Reaches(items[i], can) && i < |items| - 1 {
        assert front[i] == items[i];
      }
      if i :| 0 <= i < |front| && Reaches(front[i], can) {
        assert items[i] == front[i];
      }
    }
  }

  // ---------- the filtered tree, line by line ----------

  // The tree as an indented list: every node with its depth, parents before children, in order.
  datatype Line = Line(depth: nat, item: NavItem)

  function Bare(item: NavItem): NavItem {
    if item.children.Submenu? then item.(children := Submenu([])) else item
  }

  function Outline(items: seq<NavItem>, depth: nat): seq<Line> {
    if items == [] then [] else
      var last := items[|items| - 1];
      Outline(items[..|items| - 1], depth) + [Line(depth, Bare(last))] +
      if last.children.Submenu? then Outline(last.children.items, depth + 1) else []
  }

  // The lines of the nodes that reach something the user may see.
  ghost function VisibleLines(items: seq<NavItem>, can: string -> bool, depth: nat): seq<Line> {
    if items == [] then [] else
      var last := items[|items| - 1];
      VisibleLines(items[..|items| - 1], can, depth) +
      (if Reaches(last, can) then [Line(depth, Bare(last))] else []) +
      if last.children.Submenu? then VisibleLines(last.children.items, can, depth + 1) else []
  }

  lemma OutlineAppend(items: seq<NavItem>, item: NavItem, depth: nat)
    ensures Outline(items + [item], depth) ==
            Outline(items, depth) + [Line(depth, Bare(item))] +
            if item.children.Submenu? then Outline(item.children.items, depth + 1) else []
  {
    assert (items + [item])[..|items|] == items;
  }

  // Filtering deletes lines and does nothing else: the nodes left stand in the same order, at the same
  // depth, with the same fields, and they are exactly those that reach something visible.
  lemma {:induction false} FilterKeepsVisibleLines(items: seq<NavItem>, can: string -> bool, depth: nat)
    ensures Outline(Filter(items, can), depth) == VisibleLines(items, can, depth)
    decreases items
  {
    if items != [] {
      hide Reaches, Shown;
      var front, last := items[..|items| - 1], items[|items| - 1];
      FilterKeepsVisibleLines(front, can, depth);
      KeptExactly(last, can);
      var pruned := Pruned(last, can);
      if last.children.Submenu? {
        FilterKeepsVisibleLines(last.children.items, can, depth + 1);
      }
      if Shown(pruned, can) {
        OutlineAppend(Filter(front, can), pruned, depth);
        assert Bare(pruned) == Bare(last);
      } else {
        NothingBelow(last, can);
        assert Filter(items, can) == Filter(front, can);
      }
    }
  }

  lemma NothingBelow(item: NavItem, can: string -> bool)
    requires !Shown(Pruned(item, can), can)
    ensures item.children.Submenu? ==> Filter(item.children.items, can) == []
  {
  }

  // ---------- filtering twice ----------

  ghost predicate Within(p: string -> bool, q: string -> bool) {
    forall code :: p(code) ==> q(code)
  }

  lemma FilterAppend(items: seq<NavItem>, item: NavItem, can: string -> bool)
    ensures Filter(items + [item], can) ==
            Filter(items, can) + if Shown(Pruned(item, can), can) then [Pruned(item, can)] else []
  {
    assert (items + [item])[..|items|] == items;
  }

  // With fewer permissions, what was shown before does not matter: filtering for `q` first, or after, is
  // filtering for `p` alone.
  lemma {:induction false} FilterTwice(items: seq<NavItem>, p: string -> bool, q: string -> bool)
    requires Within(p, q)
    ensures Filter(Filter(items, q), p) == Filter(items, p)
    ensures Filter(Filter(items, p), q) == Filter(items, p)
    decreases items, 1
  {
    if items != [] {
      hide Pruned, Shown, Within;
      var front, last := items[..|items| - 1], items[|items| - 1];
      FilterTwice(front, p, q);
      PrunedTwice(last, p, q);
      FilterAppend(Filter(front, q), Pruned(last, q), p);
      FilterAppend(Filter(front, p), Pruned(last, p), q);
      assert Filter(front, q) + [] == Filter(front, q) && Filter(front, p) + [] == Filter(front, p);
    }
  }

  lemma {:induction false} PrunedTwice(item: NavItem, p: string -> bool, q: string -> bool)
    requires Within(p, q)
    ensures Shown(Pruned(item, p), p) ==> Shown(Pruned(item, q), q)
    ensures Pruned(Pruned(item, q), p) == Pruned(item, p) == Pruned(Pruned(item, p), q)
    ensures Shown(Pruned(item, p), p) ==> Shown(Pruned(item, p), q)
    decreases item, 2
  {
    if item.children.Submenu? {
      FilterTwice(item.children.items, p, q);
      if Filter(item.children.items, q) == [] {
        assert Filter([], p) == [];
      }
    }
  }

  // In particular filtering again changes nothing.
  lemma FilterIdempotent(items: seq<NavItem>, can: string -> bool)
    ensures Filter(Filter(items, can), can) == Filter(items, can)
  {
    hide Filter;
    FilterTwice(items, can, can);
  }

  ghost predicate Composes(p: string -> bool, q: string -> bool) {
    forall items :: Filter(Filter(items, p), q) == Filter(items, code => p(code) && q(code))
  }

  lemma {:induction false} SameFilter(items: seq<NavItem>, p: string -> bool, q: string -> bool)
    requires forall code :: p(code) == q(code)
    ensures Filter(items, p) == Filter(items, q)
    decreases items
  {
    if items != [] {
      hide Pruned, Allowed;
      var front, last := items[..|items| - 1], items[|items| - 1];
      SameFilter(front, p, q);
      SamePruned(last, p, q);
      SameAllowed(Pruned(last, p), p, q);
    }
  }

  lemma {:induction false} SamePruned(item: NavItem, p: string -> bool, q: string -> bool)
    requires forall code :: p(code) == q(code)
    ensures Pruned(item, p) == Pruned(item, q)
    decreases item, 1
  {
    hide Filter;
    if item.children.Submenu? {
      SameFilter(item.children.items, p, q);
    }
  }

  lemma SameAllowed(item: NavItem, p: string -> bool, q: string -> bool)
    requires forall code :: p(code) == q(code)
    ensures Allowed(item, p) == Allowed(item, q)
  {
  }

  // One filter after another is the filter for both exactly if one permission set contains the other: a
  // parent seen for its child survives the second filter by its own permission.
  lemma ComposesExactly(p: string -> bool, q: string -> bool)
    ensures Composes(p, q) <==> Within(p, q) || Within(q, p)
  {
    if Within(p, q) || Within(q, p) {
      NestedCompose(p, q);
    } else {
      var a :| p(a) && !q(a);
      var b :| q(b) && !p(b);
      CrossedDoNotCompose(p, q, a, b);
    }
  }

  lemma NestedCompose(p: string -> bool, q: string -> bool)
    requires Within(p, q) || Within(q, p)
    ensures Composes(p, q)
  {
    hide Filter;
    var both := code => p(code) && q(code);
    forall items ensures Filter(Filter(items, p), q) == Filter(items, both) {
      if Within(p, q) {
        FilterTwice(items, p, q);
        SameFilter(items, p, both);
      } else {
        FilterTwice(items, q, p);
        SameFilter(items, q, both);
      }
    }
  }

  function Sample(code: string, children: Submenu): NavItem {
    NavItem("", "", "", "", Some([code]), None, children, None)
  }

  lemma FilterOne(item: NavItem, can: string -> bool)
    ensures Filter([item], can) == if Shown(Pruned(item, can), can) then [Pruned(item, can)] else []
  {
    FilterAppend([], item, can);
    assert [] + [item] == [item];
  }

  lemma SampleAllowed(code: string, children: Submenu, can: string -> bool)
    ensures Allowed(Sample(code, children), can) <==> can(code)
  {
    assert [code][0] == code;
  }

  lemma CrossedDoNotCompose(p: string -> bool, q: string -> bool, a: string, b: string)
    requires p(a) && !q(a) && q(b) && !p(b)
    ensures !Composes(p, q)
  {
    hide Filter, Allowed;
    var both := code => p(code) && q(code);
    var child := Sample(a, NoSubmenu);
    var parent := Sample(b, Submenu([child]));
    SampleAllowed(a, NoSubmenu, p);
    SampleAllowed(a, NoSubmenu, q);
    SampleAllowed(a, NoSubmenu, both);
    SampleAllowed(b, Submenu([]), q);
    SampleAllowed(b, Submenu([]), both);
    FilterOne(child, p);
    FilterOne(child, q);
    FilterOne(child, both);
    FilterOne(parent, p);
    FilterOne(parent, q);
    FilterOne(parent, both);
    assert Filter([parent], p) == [parent];
    assert Filter([parent], q) == [Sample(b, Submenu([]))];
    assert Filter([parent], both) == [];
    assert Filter(Filter([parent], p), q) != Filter([parent], both);
  }

  // ---------- the active item ----------

  ghost predicate ActiveNodeIn(item: NavItem, active: string -> bool) {
    exists path: seq<nat> :: NodeAt(item, path).Some? && active(NodeAt(item, path).value.href)
  }

  // An item is active exactly if some node at or below it points to the current page.
  lemma {:induction false} ActiveExactly(item: NavItem, active: string -> bool)
    ensures IsActive(item, active) <==> ActiveNodeIn(item, active)
    decreases item, 0
  {
    if active(item.href) {
      assert NodeAt(item, []) == Some(item);
    } else if item.children.Submenu? {
      SomeActiveExactly(item.children.items, active);
    }
    if IsActive(item, active) && !active(item.href) {
      var children := item.children.items;
      var i :| 0 <= i < |children| && ActiveNodeIn(children[i], active);
      var path: seq<nat> :| NodeAt(children[i], path).Some? && active(NodeAt(children[i], path).value.href);
      PathBelow(item, i, path);
    }
    if path: seq<nat> :| NodeAt(item, path).Some? && active(NodeAt(item, path).value.href) {
      if path != [] {
        assert NodeAt(Children(item)[path[0]], path[1..]) == NodeAt(item, path);
      }
    }
  }

  lemma {:induction false} SomeActiveExactly(items: seq<NavItem>, active: string -> bool)
    ensures SomeActive(items, active) <==> exists i :: 0 <= i < |items| && ActiveNodeIn(items[i], active)
    decreases items
  {
    if items != [] {
      var front, last := items[..|items| - 1], items[|items| - 1];
      SomeActiveExactly(front, active);
      ActiveExactly(last, active);
      if i :| 0 <= i < |items| && ActiveNodeIn(items[i], active) && i < |items| - 1 {
        assert front[i] == items[i];
      }
      if i :| 0 <= i < |front| && ActiveNodeIn(front[i], active) {
        assert items[i] == front[i];
      }
    }
  }

  // Hiding items never lights up an item that was not active.
  lemma {:induction false} FilterLightsNothing(items: seq<NavItem>, can: string -> bool, active: string -> bool)
    ensures SomeActive(Filter(items, can), active) ==> SomeActive(items, active)
    decreases items
  {
    if items != [] {
      hide Shown;
      var front, last := items[..|items| - 1], items[|items| - 1];
      FilterLightsNothing(front, can, active);
      PrunedLightsNothing(last, can, active);
      SomeActiveAppend(Filter(front, can), Pruned(last, can), active);
      assert Filter(front, can) + [] == Filter(front, can);
    }
  }

  lemma SomeActiveAppend(items: seq<NavItem>, item: NavItem, active: string -> bool)
    ensures SomeActive(items + [item], active) <==> SomeActive(items, active) || IsActive(item, active)
  {
    hide IsActive;
    assert (items + [item])[..|items|] == items;
  }

  lemma {:induction false} PrunedLightsNothing(item: NavItem, can: string -> bool, active: string -> bool)
    ensures IsActive(Pruned(item, can), active) ==> IsActive(item, active)
    decreases item, 1
  {
    hide Filter, SomeActive;
    if item.children.Submenu? {
      FilterLightsNothing(item.children.items, can, active);
    }
  }
}
