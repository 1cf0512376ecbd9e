/**
 * The grouping engine of `ItemContainer`: `getGroupedItems` takes the
 * renderable items of a tree and groups them, first by sibling count, then
 * by depth from the end of their branch, and throws when anything is left.
 *
 * Each pass walks a snapshot of the working set `$items` (PHP's `foreach` by
 * value iterates a copy), sets `grouped` flags on the arena and removes ids
 * from the working set. `Run` is the fold over that snapshot; the methods
 * carry out the same steps on the arena and are proved equal to it.
 */
module ItemGrouping {

  import opened Wrappers
  import opened Strings
  import opened ItemTree

  /** What a pass threads from item to item: the working set, the grouped items and the groups yielded so far. */
  datatype Pass = Pass(working: seq<ItemId>, grouped: set<ItemId>, groups: seq<Group>)

  /** The two passes, with their parameters (`$min_count`, `$depth`). */
  datatype Rule = BySiblingCount(min: int) | ByDepth(depth: int)

  predicate InTree(t: Arena, xs: seq<ItemId>)
    reads t`items
  {
    forall k :: 0 <= k < |xs| ==> xs[k] < |t.items|
  }

  lemma InTreeOfMembers(t: Arena, xs: seq<ItemId>)
    requires forall y :: y in xs ==> y < |t.items|
    ensures InTree(t, xs)
  {
    forall k | 0 <= k < |xs|
      ensures xs[k] < |t.items|
    {
      assert xs[k] in xs;
    }
  }

  function SetOf(xs: seq<ItemId>): (r: set<ItemId>)
    ensures forall x :: x in r <==> x in xs
  {
    set x | x in xs
  }

  lemma SetOfSnoc(xs: seq<ItemId>, k: nat)
    requires k < |xs|
    ensures SetOf(xs[..k + 1]) == SetOf(xs[..k]) + {xs[k]}
  {
    assert xs[..k + 1] == xs[..k] + [xs[k]];
  }

  /** Unsetting one more item of `xs` from the working set. */
  lemma RemoveStep(ws: seq<ItemId>, xs: seq<ItemId>, k: nat)
    requires k < |xs|
    ensures SetOf(xs[..k + 1]) == SetOf(xs[..k]) + {xs[k]}
    ensures Remove(Remove(ws, SetOf(xs[..k])), {xs[k]}) == Remove(ws, SetOf(xs[..k + 1]))
  {
    SetOfSnoc(xs, k);
    RemoveMore(ws, SetOf(xs[..k]), xs[k]);
  }

  /** `unset($items[$a]); unset($items[$b])` is one removal of both. */
  lemma {:induction false} RemoveMore(ws: seq<ItemId>, a: set<ItemId>, b: ItemId)
    ensures Remove(Remove(ws, a), {b}) == Remove(ws, a + {b})
  {
    if ws != [] {
      RemoveMore(ws[1..], a, b);
      var w := Remove(ws, a);
      if ws[0] in a {
        assert w == Remove(ws[1..], a);
      } else {
        assert w == [ws[0]] + Remove(ws[1..], a);
        assert w[0] == ws[0] && w[1..] == Remove(ws[1..], a);
      }
    }
  }

  /** Removing nothing leaves the working set as it is. */
  lemma {:induction false} RemoveNothing(ws: seq<ItemId>)
    ensures Remove(ws, {}) == ws
  {
    if ws != [] {
      RemoveNothing(ws[1..]);
      assert ws == [ws[0]] + ws[1..];
    }
  }

  // ---------------------------------------------------------------------------
  // The sibling pass

  /** The sibling names, each with its alias (`getName()`). */
  function SiblingNames(t: Arena, xs: seq<ItemId>): (r: seq<String>)
    requires InTree(t, xs)
    reads t`items, t`containers
    ensures |r| == |xs| && forall k :: 0 <= k < |xs| ==> r[k] == t.Name(xs[k], true)
  {
    if xs == [] then [] else SiblingNames(t, xs[..|xs| - 1]) + [t.Name(xs[|xs| - 1], true)]
  }

  lemma SiblingNamesStep(t: Arena, xs: seq<ItemId>, k: nat)
    requires InTree(t, xs) && k < |xs|
    ensures InTree(t, xs[..k]) && InTree(t, xs[..k + 1])
    ensures SiblingNames(t, xs[..k + 1]) == SiblingNames(t, xs[..k]) + [t.Name(xs[k], true)]
  {
    assert xs[..k + 1][..k] == xs[..k];
  }

  /**
   * One item of `groupItemsBySiblingCount`: a grouped item and a root-level
   * item are skipped, and so is a container with fewer than `min` siblings;
   * otherwise all its siblings form one group under the item's namespace.
   */
  function SiblingStep(t: Arena, x: ItemId, st: Pass, min: int): Result<Pass, TreeError>
    requires t.Valid() && x < |t.items|
    reads t`items, t`containers
  {
    if x in st.grouped then Success(st)
    else
      match t.Container(x)
      case Failure(e) => Failure(e)
      case Success(c) =>
        if t.containers[c].parent.None? then Success(st)
        else
          var siblings := t.Siblings(c);
          if |siblings| < min then Success(st)
          else
            match t.Namespace(x, None)
            case Failure(e) => Failure(e)
            case Success(ns) =>
              Success(Pass(Remove(st.working, SetOf(siblings)), st.grouped + SetOf(siblings),
                           st.groups + [Grouped(ns, SiblingNames(t, siblings))]))
  }

  // ---------------------------------------------------------------------------
  // The depth pass

  predicate HasDepths(t: Arena, ws: seq<ItemId>)
    requires t.Valid() && InTree(t, ws)
    reads t`items, t`containers
  {
    forall k :: 0 <= k < |ws| ==> t.ItemDepth(ws[k]).Success?
  }

  /** The depth of each item, read once per item; fails when one of them cannot be read. */
  function DepthMap(t: Arena, ws: seq<ItemId>): (r: Result<map<ItemId, nat>, TreeError>)
    requires t.Valid() && InTree(t, ws)
    reads t`items, t`containers
    ensures r.Success? <==> HasDepths(t, ws)
    ensures r.Success? ==> forall k :: 0 <= k < |ws| ==> ws[k] in r.value && r.value[ws[k]] == t.ItemDepth(ws[k]).value
  {
    if ws == [] then Success(map[])
    else
      var y := ws[|ws| - 1];
      assert ws == ws[..|ws| - 1] + [y];
      match DepthMap(t, ws[..|ws| - 1])
      case Failure(e) => Failure(e)
      case Success(m) =>
        match t.ItemDepth(y)
        case Failure(e) => Failure(e)
        case Success(d) => Success(m[y := d])
  }

  predicate Keyed(m: map<ItemId, nat>, s: seq<ItemId>) {
    forall k :: 0 <= k < |s| ==> s[k] in m
  }

  /** Deeper items first. */
  predicate Descending(m: map<ItemId, nat>, s: seq<ItemId>)
    requires Keyed(m, s)
  {
    forall a, b :: 0 <= a < b < |s| ==> m[s[a]] >= m[s[b]]
  }

  /** How many leading items of `s` are at least as deep as `x`. */
  function InsertPos(m: map<ItemId, nat>, x: ItemId, s: seq<ItemId>): (j: nat)
    requires Keyed(m, s) && x in m
    ensures j <= |s|
    ensures forall k :: 0 <= k < j ==> m[s[k]] >= m[x]
    ensures j < |s| ==> m[s[j]] < m[x]
  {
    if s == [] || m[s[0]] < m[x] then 0
    else 1 + InsertPos(m, x, s[1..])
  }

  /** Insertion after every item at least as deep, which keeps equal depths in their order. */
  function InsertByDepth(m: map<ItemId, nat>, x: ItemId, s: seq<ItemId>): (r: seq<ItemId>)
    requires Keyed(m, s) && x in m
    ensures multiset(r) == multiset(s) + multiset{x}
    ensures Keyed(m, r)
    ensures Descending(m, s) ==> Descending(m, r)
  {
    var j := InsertPos(m, x, s);
    assert s == s[..j] + s[j..];
    InsertKeeps(m, x, s, j);
    s[..j] + [x] + s[j..]
  }

  lemma InsertKeeps(m: map<ItemId, nat>, x: ItemId, s: seq<ItemId>, j: nat)
    requires Keyed(m, s) && x in m && j <= |s|
    requires forall k :: 0 <= k < j ==> m[s[k]] >= m[x]
    requires j < |s| ==> m[s[j]] < m[x]
    ensures Keyed(m, s[..j] + [x] + s[j..])
    ensures Descending(m, s) ==> Descending(m, s[..j] + [x] + s[j..])
  {
    var r := s[..j] + [x] + s[j..];
    forall k | 0 <= k < |r| ensures r[k] in m && r[k] == (if k < j then s[k] else if k == j then x else s[k - 1]) {
      if k < j { assert r[k] == s[k]; } else if k == j { assert r[k] == x; } else { assert r[k] == s[k - 1]; }
    }
    if Descending(m, s) {
      forall a, b | 0 <= a < b < |r| ensures m[r[a]] >= m[r[b]] {
        if b == j {
          assert m[s[a]] >= m[x];
        } else if a == j {
          assert m[s[j]] >= m[s[b - 1]];
        }
      }
    }
  }

  /** Insertion sort, the items taken in their order. */
  function SortedByDepth(m: map<ItemId, nat>, ws: seq<ItemId>): (r: seq<ItemId>)
    requires Keyed(m, ws)
    ensures multiset(r) == multiset(ws) && Keyed(m, r) && Descending(m, r)
  {
    if ws == [] then []
    else
      assert ws == ws[..|ws| - 1] + [ws[|ws| - 1]];
      InsertByDepth(m, ws[|ws| - 1], SortedByDepth(m, ws[..|ws| - 1]))
  }

  /** `uasort` by descending depth: every depth is read once there are two items to compare. */
  function SortByDepth(t: Arena, ws: seq<ItemId>): (r: Result<seq<ItemId>, TreeError>)
    requires t.Valid() && InTree(t, ws)
    reads t`items, t`containers
    ensures r.Failure? <==> |ws| >= 2 && !HasDepths(t, ws)
    ensures r.Success? ==> multiset(r.value) == multiset(ws) && InTree(t, r.value)
    ensures r.Success? && |ws| >= 2 ==>
      var m := DepthMap(t, ws).value; Keyed(m, r.value) && Descending(m, r.value)
  {
    if |ws| <= 1 then Success(ws)
    else
      match DepthMap(t, ws)
      case Failure(e) => Failure(e)
      case Success(m) =>
        var sorted := SortedByDepth(m, ws);
        InTreeOfPermutation(t, sorted, ws);
        Success(sorted)
  }

  lemma InTreeOfPermutation(t: Arena, a: seq<ItemId>, b: seq<ItemId>)
    requires multiset(a) == multiset(b) && InTree(t, b)
    ensures InTree(t, a)
  {
    forall k | 0 <= k < |a| ensures a[k] < |t.items| {
      assert a[k] in multiset(b);
    }
  }

  /** `array_filter` keeping the items no deeper than `d`; every depth is read. */
  function WithinDepth(t: Arena, ys: seq<ItemId>, d: nat): (r: Result<seq<ItemId>, TreeError>)
    requires t.Valid() && InTree(t, ys)
    reads t`items, t`containers
    ensures r.Success? <==> HasDepths(t, ys)
    ensures r.Success? ==> InTree(t, r.value)
    ensures r.Success? ==> forall k :: 0 <= k < |r.value| ==> r.value[k] in ys && t.ItemDepth(r.value[k]).value <= d
    ensures r.Success? ==> forall k :: 0 <= k < |ys| && t.ItemDepth(ys[k]).value <= d ==> ys[k] in r.value
  {
    if ys == [] then Success([])
    else
      var y := ys[|ys| - 1];
      assert ys == ys[..|ys| - 1] + [y];
      match WithinDepth(t, ys[..|ys| - 1], d)
      case Failure(e) => Failure(e)
      case Success(front) =>
        match t.ItemDepth(y)
        case Failure(e) => Failure(e)
        case Success(dy) => Success(if dy <= d then front + [y] else front)
  }

  /** `getFullyQualifiedName(true, $until)` of each item, failing as soon as one does. */
  function FullNames(t: Arena, ys: seq<ItemId>, until: Option<ItemId>): (r: Result<seq<String>, TreeError>)
    requires t.Valid() && InTree(t, ys)
    reads t`items, t`containers
    ensures r.Success? <==> forall k :: 0 <= k < |ys| ==> t.FullName(ys[k], true, until).Success?
    ensures r.Success? ==> |r.value| == |ys|
    ensures r.Success? ==> forall k :: 0 <= k < |ys| ==> r.value[k] == t.FullName(ys[k], true, until).value
  {
    if ys == [] then Success([])
    else
      var y := ys[|ys| - 1];
      assert ys == ys[..|ys| - 1] + [y];
      match FullNames(t, ys[..|ys| - 1], until)
      case Failure(e) => Failure(e)
      case Success(front) =>
        match t.FullName(y, true, until)
        case Failure(e) => Failure(e)
        case Success(f) => Success(front + [f])
  }

  /** Once a prefix fails, so does the whole list, with the same exception. */
  lemma {:induction false} FullNamesStopsAtFailure(t: Arena, ys: seq<ItemId>, k: nat, until: Option<ItemId>)
    requires t.Valid() && InTree(t, ys) && k <= |ys|
    requires FullNames(t, ys[..k], until).Failure?
    ensures FullNames(t, ys, until) == FullNames(t, ys[..k], until)
    decreases |ys|
  {
    if k < |ys| {
      var front := ys[..|ys| - 1];
      assert front[..k] == ys[..k];
      FullNamesStopsAtFailure(t, front, k, until);
    } else {
      assert ys[..k] == ys;
    }
  }

  lemma FullNamesStep(t: Arena, ys: seq<ItemId>, k: nat, until: Option<ItemId>, front: seq<String>)
    requires t.Valid() && InTree(t, ys) && k < |ys|
    requires FullNames(t, ys[..k], until) == Success(front)
    ensures FullNames(t, ys[..k + 1], until) ==
      match t.FullName(ys[k], true, until)
      case Failure(e) => Failure(e)
      case Success(f) => Success(front + [f])
  {
    assert ys[..k + 1][..k] == ys[..k];
  }

  /** An item yielded on its own by its fully qualified name. */
  function Alone(t: Arena, x: ItemId, st: Pass): Result<Pass, TreeError>
    requires t.Valid() && x < |t.items|
    reads t`items, t`containers
  {
    match t.FullName(x, true, None)
    case Failure(e) => Failure(e)
    case Success(f) => Success(Pass(Remove(st.working, {x}), st.grouped + {x}, st.groups + [Single(f)]))
  }

  /**
   * One item of `groupItemsByDepthFromBranchEnd`: with no item `depth`
   * levels up it is yielded alone; otherwise the renderable items under
   * that ancestor, no deeper than the item, are yielded alone when there is
   * one and as a group relative to the ancestor otherwise.
   */
  function DepthStep(t: Arena, x: ItemId, st: Pass, depth: int): Result<Pass, TreeError>
    requires t.Valid() && x < |t.items|
    reads t`items, t`containers
  {
    if x in st.grouped then Success(st)
    else
      match t.Parent(x, depth)
      case Failure(e) => Failure(e)
      case Success(None) => Alone(t, x, st)
      case Success(Some(p)) => GroupUnder(t, x, st, p)
  }

  /**
   * The items under the ancestor `p` of `x`: the renderable ones below it,
   * not deeper than `x`; one is yielded alone, several as a group named
   * relative to `p`.
   */
  function GroupUnder(t: Arena, x: ItemId, st: Pass, p: ItemId): Result<Pass, TreeError>
    requires t.Valid() && x < |t.items| && p < |t.items|
    reads t`items, t`containers
  {
    match ItemsUnder(t, x, st, p)
    case Failure(e) => Failure(e)
    case Success(group) => GroupFound(t, group, st, p)
  }

  /** The renderable items below `p`, no deeper than `x`. */
  function ItemsUnder(t: Arena, x: ItemId, st: Pass, p: ItemId): (r: Result<seq<ItemId>, TreeError>)
    requires t.Valid() && x < |t.items| && p < |t.items|
    reads t`items, t`containers
    ensures r.Success? ==> InTree(t, r.value)
  {
    var found := t.Renderable(t.Children(p), st.grouped);
    InTreeOfMembers(t, found);
    match t.ItemDepth(x)
    case Failure(e) => Failure(e)
    case Success(d) => WithinDepth(t, found, d)
  }

  /** The group found under `p`: alone when it holds one item, named relative to `p` otherwise. */
  function GroupFound(t: Arena, group: seq<ItemId>, st: Pass, p: ItemId): Result<Pass, TreeError>
    requires t.Valid() && InTree(t, group) && p < |t.items|
    reads t`items, t`containers
  {
    if |group| == 1 then Alone(t, group[0], st)
    else
      match FullNames(t, group, Some(p))
      case Failure(e) => Failure(e)
      case Success(names) =>
        match t.FullName(p, false, None)
        case Failure(e) => Failure(e)
        case Success(ns) =>
          Success(Pass(Remove(st.working, SetOf(group)), st.grouped + SetOf(group),
                       st.groups + [Grouped(ns, names)]))
  }

  // ---------------------------------------------------------------------------
  // The passes and `getGroupedItems`

  function Step(t: Arena, rule: Rule, x: ItemId, st: Pass): Result<Pass, TreeError>
    requires t.Valid() && x < |t.items|
    reads t`items, t`containers
  {
    match rule
    case BySiblingCount(min) => SiblingStep(t, x, st, min)
    case ByDepth(depth) => DepthStep(t, x, st, depth)
  }

  /** A pass over the snapshot `snap`: the steps in order, stopping at the first exception. */
  function Run(t: Arena, rule: Rule, snap: seq<ItemId>, start: Pass): Result<Pass, TreeError>
    requires t.Valid() && InTree(t, snap)
    reads t`items, t`containers
  {
    if snap == [] then Success(start)
    else
      match Run(t, rule, snap[..|snap| - 1], start)
      case Failure(e) => Failure(e)
      case Success(st) => Step(t, rule, snap[|snap| - 1], st)
  }

  /** Once a prefix of the snapshot throws, so does the pass, with the same exception. */
  lemma {:induction false} RunStopsAtFailure(t: Arena, rule: Rule, snap: seq<ItemId>, k: nat, start: Pass)
    requires t.Valid() && InTree(t, snap) && k <= |snap|
    requires Run(t, rule, snap[..k], start).Failure?
    ensures Run(t, rule, snap, start) == Run(t, rule, snap[..k], start)
    decreases |snap|
  {
    if k < |snap| {
      var front := snap[..|snap| - 1];
      assert front[..k] == snap[..k];
      RunStopsAtFailure(t, rule, front, k, start);
    } else {
      assert snap[..k] == snap;
    }
  }

  /** `groupItemsBySiblingCount` over the working set as it stands. */
  function SiblingPass(t: Arena, st: Pass, min: int): Result<Pass, TreeError>
    requires t.Valid() && InTree(t, st.working)
    reads t`items, t`containers
  {
    Run(t, BySiblingCount(min), st.working, st)
  }

  /** `groupItemsByDepthFromBranchEnd`: the working set sorted, then walked in that order. */
  function DepthPass(t: Arena, st: Pass, depth: int): Result<Pass, TreeError>
    requires t.Valid() && InTree(t, st.working)
    reads t`items, t`containers
  {
    match SortByDepth(t, st.working)
    case Failure(e) => Failure(e)
    case Success(sorted) => Run(t, ByDepth(depth), sorted, st.(working := sorted))
  }

  /**
   * `getGroupedItems` for the container `root` with grouped set `g`: the
   * renderable items, the sibling pass, then (when items remain) the depth
   * pass; items still left make it throw `Unable to group all items`.
   */
  function GroupedItems(t: Arena, root: ContainerId, g: set<ItemId>, min: int, depth: int): Result<Pass, TreeError>
    requires t.Valid() && root < |t.containers|
    reads t`items, t`containers
  {
    var ws := t.Renderable(root, g);
    InTreeOfMembers(t, ws);
    match SiblingPass(t, Pass(ws, g, []), min)
    case Failure(e) => Failure(e)
    case Success(s1) =>
      RunStaysInTree(t, BySiblingCount(min), ws, Pass(ws, g, []));
      var s2 := if |s1.working| > 0 then DepthPass(t, s1, depth) else Success(s1);
      match s2
      case Failure(e) => Failure(e)
      case Success(s) => if |s.working| != 0 then Failure(Ungrouped) else Success(s)
  }

  /** `GroupedItems` pass by pass, for given outcomes of the two passes. */
  lemma GroupedItemsSteps(t: Arena, root: ContainerId, g: set<ItemId>, min: int, depth: int,
                          ws: seq<ItemId>, s1: Result<Pass, TreeError>, s2: Result<Pass, TreeError>)
    requires t.Valid() && root < |t.containers|
    requires ws == t.Renderable(root, g) && InTree(t, ws)
    requires s1 == SiblingPass(t, Pass(ws, g, []), min)
    requires s1.Success? ==> InTree(t, s1.value.working)
    requires s1.Success? ==> s2 == if |s1.value.working| > 0 then DepthPass(t, s1.value, depth) else Success(s1.value)
    ensures s1.Failure? ==> GroupedItems(t, root, g, min, depth) == Failure(s1.error)
    ensures s1.Success? && s2.Failure? ==> GroupedItems(t, root, g, min, depth) == Failure(s2.error)
    ensures s1.Success? && s2.Success? ==>
      GroupedItems(t, root, g, min, depth) == if |s2.value.working| != 0 then Failure(Ungrouped) else s2
  {
  }

  // ---------------------------------------------------------------------------
  // What the passes keep

  /** The working set holds siblings of the tree that are not grouped. */
  ghost predicate Good(t: Arena, st: Pass)
    requires t.Valid()
    reads t`items, t`containers
  {
    forall y :: y in st.working ==> y < |t.items| && t.IsSibling(y) && y !in st.grouped
  }

  /**
   * From `st` to `st2`: the working set only shrinks, grouped items stay
   * grouped, and an item leaves the working set only by being grouped.
   */
  ghost predicate Follows(t: Arena, st: Pass, st2: Pass)
    requires t.Valid()
    reads t`items, t`containers
  {
    Good(t, st2) && st.grouped <= st2.grouped &&
    (forall y :: y in st2.working ==> y in st.working) &&
    (forall y :: y in st.working ==> y in st2.working || y in st2.grouped)
  }

  lemma GroupingFollows(t: Arena, st: Pass, a: set<ItemId>, st2: Pass)
    requires t.Valid() && Good(t, st)
    requires st2.working == Remove(st.working, a) && st2.grouped == st.grouped + a
    ensures Follows(t, st, st2)
  {
  }

  lemma AloneFollows(t: Arena, x: ItemId, st: Pass)
    requires t.Valid() && x < |t.items| && Good(t, st)
    ensures Alone(t, x, st).Success? ==> Follows(t, st, Alone(t, x, st).value)
  {
    if Alone(t, x, st).Success? {
      GroupingFollows(t, st, {x}, Alone(t, x, st).value);
    }
  }

  /** Every step of either pass keeps the working set good and only moves items from it to the grouped set. */
  lemma StepFollows(t: Arena, rule: Rule, x: ItemId, st: Pass)
    requires t.Valid() && x < |t.items| && Good(t, st)
    ensures Step(t, rule, x, st).Success? ==> Follows(t, st, Step(t, rule, x, st).value)
  {
    var r := Step(t, rule, x, st);
    if r.Success? && r.value != st {
      match rule
      case BySiblingCount(min) =>
        var c := t.Container(x).value;
        GroupingFollows(t, st, SetOf(t.Siblings(c)), r.value);
      case ByDepth(depth) =>
        var p := t.Parent(x, depth).value;
        if p.None? {
          AloneFollows(t, x, st);
        } else {
          var found := t.Renderable(t.Children(p.value), st.grouped);
          InTreeOfMembers(t, found);
          var group := WithinDepth(t, found, t.ItemDepth(x).value).value;
          if |group| == 1 {
            AloneFollows(t, group[0], st);
          } else {
            GroupingFollows(t, st, SetOf(group), r.value);
          }
        }
    }
  }

  lemma {:induction false} RunFollows(t: Arena, rule: Rule, snap: seq<ItemId>, start: Pass)
    requires t.Valid() && InTree(t, snap) && Good(t, start)
    ensures Run(t, rule, snap, start).Success? ==> Follows(t, start, Run(t, rule, snap, start).value)
  {
    if snap != [] {
      var front := snap[..|snap| - 1];
      RunFollows(t, rule, front, start);
      if Run(t, rule, front, start).Success? {
        StepFollows(t, rule, snap[|snap| - 1], Run(t, rule, front, start).value);
      }
    }
  }

  /** The working set only loses items, so it stays inside the tree. */
  lemma {:induction false} RunStaysInTree(t: Arena, rule: Rule, snap: seq<ItemId>, start: Pass)
    requires t.Valid() && InTree(t, snap)
    requires forall y :: y in start.working ==> y < |t.items| && t.IsSibling(y) && y !in start.grouped
    ensures Run(t, rule, snap, start).Success? ==> InTree(t, Run(t, rule, snap, start).value.working)
  {
    RunFollows(t, rule, snap, start);
    if Run(t, rule, snap, start).Success? {
      InTreeOfMembers(t, Run(t, rule, snap, start).value.working);
    }
  }

  // ---------------------------------------------------------------------------
  // When grouping succeeds

  /** Once every item has been added somewhere, the sibling step does not throw. */
  lemma SiblingStepSucceeds(t: Arena, x: ItemId, st: Pass, min: int)
    requires t.Valid() && t.Placed() && x < |t.items|
    ensures SiblingStep(t, x, st, min).Success?
  {
    t.PlacedHasNames(x, None);
  }

  /** So neither does the sibling pass. */
  lemma {:induction false} SiblingRunSucceeds(t: Arena, snap: seq<ItemId>, start: Pass, min: int)
    requires t.Valid() && t.Placed() && InTree(t, snap)
    ensures Run(t, BySiblingCount(min), snap, start).Success?
  {
    if snap != [] {
      var front := snap[..|snap| - 1];
      SiblingRunSucceeds(t, front, start, min);
      SiblingStepSucceeds(t, snap[|snap| - 1], Run(t, BySiblingCount(min), front, start).value, min);
    }
  }

  lemma AloneSucceeds(t: Arena, x: ItemId, st: Pass)
    requires t.Valid() && t.Placed() && x < |t.items|
    ensures Alone(t, x, st).Success? && x !in Alone(t, x, st).value.working
  {
    t.PlacedHasNames(x, None);
  }

  /** A found group holding `x` is yielded without an exception and takes `x` out of the working set. */
  lemma GroupFoundSucceeds(t: Arena, group: seq<ItemId>, st: Pass, p: ItemId, x: ItemId)
    requires t.Valid() && t.Placed() && InTree(t, group) && p < |t.items| && x in group
    ensures GroupFound(t, group, st, p).Success? && x !in GroupFound(t, group, st, p).value.working
  {
    if |group| == 1 {
      assert group[0] == x;
      AloneSucceeds(t, x, st);
    } else {
      forall k | 0 <= k < |group| ensures t.FullName(group[k], true, Some(p)).Success? {
        t.PlacedHasNames(group[k], Some(p));
      }
      t.PlacedHasNames(p, None);
    }
  }

  /** Under an ancestor `p` found `depth >= 1` levels up, the group holds `x` itself. */
  lemma GroupUnderSucceeds(t: Arena, x: ItemId, st: Pass, depth: int)
    requires t.Valid() && t.Consistent() && t.Placed() && x < |t.items| && depth >= 1
    requires t.IsRenderable(x, st.grouped)
    requires t.Parent(x, depth).Success? && t.Parent(x, depth).value.Some?
    ensures var p := t.Parent(x, depth).value.value;
      GroupUnder(t, x, st, p).Success? && x !in GroupUnder(t, x, st, p).value.working
  {
    t.PlacedHasPath(x);
    t.RenderableUnderParent(x, depth, st.grouped);
    var p := t.Parent(x, depth).value.value;
    var found := t.Renderable(t.Children(p), st.grouped);
    InTreeOfMembers(t, found);
    forall k | 0 <= k < |found| ensures t.ItemDepth(found[k]).Success? {
      t.PlacedHasPath(found[k]);
    }
    var d := t.ItemDepth(x).value;
    var group := WithinDepth(t, found, d).value;
    var k :| 0 <= k < |found| && found[k] == x;
    assert x in group;
    GroupFoundSucceeds(t, group, st, p, x);
  }

  /**
   * The items found under the ancestor `p` that `depth >= 1` levels above
   * `x` all sit below `p`, at most `depth` levels down.
   */
  lemma ItemsUnderAreBelow(t: Arena, x: ItemId, st: Pass, depth: int)
    requires t.Valid() && t.Consistent() && t.Placed() && x < |t.items| && depth >= 1
    requires t.Parent(x, depth).Success? && t.Parent(x, depth).value.Some?
    ensures var p := t.Parent(x, depth).value.value;
      ItemsUnder(t, x, st, p).Success? &&
      var group := ItemsUnder(t, x, st, p).value;
      forall k :: 0 <= k < |group| ==>
        t.Below(group[k], p) && |t.Path(group[k]).value| - |t.Path(p).value| <= depth
  {
    t.PlacedHasPath(x);
    t.ParentIsNullIffShallow(x, depth);
    var p := t.Parent(x, depth).value.value;
    t.DepthIsPathLength(p);
    t.RenderableIsBelow(p, st.grouped);
    var found := t.Renderable(t.Children(p), st.grouped);
    InTreeOfMembers(t, found);
    forall k | 0 <= k < |found| ensures t.ItemDepth(found[k]).Success? {
      t.PlacedHasPath(found[k]);
    }
    var group := ItemsUnder(t, x, st, p).value;
    forall k | 0 <= k < |group|
      ensures t.Below(group[k], p) && |t.Path(group[k]).value| - |t.Path(p).value| <= depth
    {
      t.DepthIsPathLength(group[k]);
    }
  }

  /**
   * A group of several items below `p` is yielded under the fully qualified
   * name of `p`, and that namespace, a `\` and each relative name give the
   * fully qualified name of the corresponding item.
   */
  lemma GroupFoundIsRelative(t: Arena, group: seq<ItemId>, st: Pass, p: ItemId)
    requires t.Valid() && t.Placed() && t.Named() && InTree(t, group) && p < |t.items| && |group| != 1
    requires forall k :: 0 <= k < |group| ==> t.Below(group[k], p)
    ensures GroupFound(t, group, st, p).Success?
    ensures var r := GroupFound(t, group, st, p).value;
      r.grouped == st.grouped + SetOf(group) &&
      |r.groups| == |st.groups| + 1 && r.groups[..|st.groups|] == st.groups &&
      var g := r.groups[|st.groups|];
      g.Grouped? && g.namespace == t.FullName(p, false, None).value && |g.names| == |group| &&
      forall k :: 0 <= k < |group| ==> t.FullName(group[k], true, None) == Success(g.namespace + "\\" + g.names[k])
  {
    forall k | 0 <= k < |group|
      ensures t.FullName(group[k], true, Some(p)).Success?
      ensures t.FullName(p, false, None).Success? && t.FullName(group[k], true, None).Success?
      ensures t.FullName(p, false, None).value + "\\" + t.FullName(group[k], true, Some(p)).value
        == t.FullName(group[k], true, None).value
    {
      t.RelativeFullName(group[k], p);
    }
    t.PlacedHasNames(p, None);
  }

  /**
   * So a group yielded by the depth step under `p` holds items at most
   * `depth` levels below `p`: each name in it joins at most `depth` names,
   * and the namespace, a `\` and the name give the item's fully qualified
   * name.
   */
  lemma DepthGroupIsRelative(t: Arena, x: ItemId, st: Pass, depth: int)
    requires t.Valid() && t.Consistent() && t.Placed() && t.Named() && x < |t.items| && depth >= 1
    requires t.Parent(x, depth).Success? && t.Parent(x, depth).value.Some?
    ensures var p := t.Parent(x, depth).value.value;
      ItemsUnder(t, x, st, p).Success? &&
      var group := ItemsUnder(t, x, st, p).value;
      forall k :: 0 <= k < |group| ==>
        t.Below(group[k], p) &&
        var rel := t.Path(group[k]).value[|t.Path(p).value|..];
        |rel| <= depth && t.FullName(group[k], false, Some(p)) == Success(Join(t.PathNames(rel), "\\"))
    ensures var p := t.Parent(x, depth).value.value;
      |ItemsUnder(t, x, st, p).value| != 1 ==>
        GroupUnder(t, x, st, p) == GroupFound(t, ItemsUnder(t, x, st, p).value, st, p) &&
        GroupFound(t, ItemsUnder(t, x, st, p).value, st, p).Success?
  {
    ItemsUnderAreBelow(t, x, st, depth);
    var p := t.Parent(x, depth).value.value;
    var group := ItemsUnder(t, x, st, p).value;
    forall k | 0 <= k < |group|
      ensures t.FullName(group[k], false, Some(p)) == Success(Join(t.PathNames(t.Path(group[k]).value[|t.Path(p).value|..]), "\\"))
    {
      t.RelativeNameIsJoinedPath(group[k], p);
    }
    if |group| != 1 {
      GroupFoundIsRelative(t, group, st, p);
    }
  }

  /**
   * With `depth >= 1` and every item added somewhere, the depth step does
   * not throw, and the item it looks at leaves the working set.
   */
  lemma DepthStepSucceeds(t: Arena, x: ItemId, st: Pass, depth: int)
    requires t.Valid() && t.Consistent() && t.Placed() && x < |t.items| && depth >= 1
    requires Good(t, st) && (x in st.working || x in st.grouped)
    ensures DepthStep(t, x, st, depth).Success? && x !in DepthStep(t, x, st, depth).value.working
  {
    if x !in st.grouped {
      t.PlacedHasPath(x);
      t.ParentIsNullIffShallow(x, depth);
      if t.Parent(x, depth).value.None? {
        AloneSucceeds(t, x, st);
      } else {
        GroupUnderSucceeds(t, x, st, depth);
      }
    }
  }

  /** So the depth pass over a snapshot of the working set does not throw and takes every item of it out. */
  lemma {:induction false} DepthRunEmpties(t: Arena, snap: seq<ItemId>, start: Pass, depth: int)
    requires t.Valid() && t.Consistent() && t.Placed() && InTree(t, snap) && depth >= 1
    requires Good(t, start) && forall k :: 0 <= k < |snap| ==> snap[k] in start.working
    ensures Run(t, ByDepth(depth), snap, start).Success?
    ensures forall k :: 0 <= k < |snap| ==> snap[k] !in Run(t, ByDepth(depth), snap, start).value.working
  {
    if snap != [] {
      var front := snap[..|snap| - 1];
      var x := snap[|snap| - 1];
      DepthRunEmpties(t, front, start, depth);
      var st := Run(t, ByDepth(depth), front, start).value;
      RunFollows(t, ByDepth(depth), front, start);
      DepthStepSucceeds(t, x, st, depth);
      StepFollows(t, ByDepth(depth), x, st);
      StaysOut(snap, front, st.working, Run(t, ByDepth(depth), snap, start).value.working);
    }
  }

  /** Once the items before the last are out of `w`, and the last is out of the smaller `w2`, all are out of `w2`. */
  lemma StaysOut(snap: seq<ItemId>, front: seq<ItemId>, w: seq<ItemId>, w2: seq<ItemId>)
    requires snap != [] && front == snap[..|snap| - 1]
    requires forall k :: 0 <= k < |front| ==> front[k] !in w
    requires (forall y :: y in w2 ==> y in w) && snap[|snap| - 1] !in w2
    ensures forall k :: 0 <= k < |snap| ==> snap[k] !in w2
  {
    forall k | 0 <= k < |snap| ensures snap[k] !in w2 {
      if k < |snap| - 1 {
        assert snap[k] == front[k];
      }
    }
  }

  /**
   * With `depth <= 0` an item is its own "parent", and a leaf is not among
   * its own children: the step yields an empty group and the leaf stays in
   * the working set, which ends in `Unable to group all items`.
   */
  lemma DepthZeroKeepsLeaf(t: Arena, x: ItemId, st: Pass, depth: int)
    requires t.Valid() && t.Placed() && x < |t.items| && depth <= 0
    requires x !in st.grouped && !t.HasChildren(x)
    ensures DepthStep(t, x, st, depth).Success?
    ensures DepthStep(t, x, st, depth).value.working == st.working
  {
    t.PlacedHasPath(x);
    t.PlacedHasNames(x, None);
    assert t.Renderable(t.Children(x), st.grouped) == [];
    assert SetOf([]) == {};
    RemoveNothing(st.working);
  }

  /**
   * `getGroupedItems` on a well-formed tree with `$group_depth_count >= 1`
   * does not throw, and every item it started from ends up grouped.
   */
  lemma GroupedItemsSucceed(t: Arena, root: ContainerId, g: set<ItemId>, min: int, depth: int)
    requires t.Valid() && t.Consistent() && t.Placed() && root < |t.containers| && depth >= 1
    ensures GroupedItems(t, root, g, min, depth).Success?
    ensures forall y :: y in t.Renderable(root, g) ==> y in GroupedItems(t, root, g, min, depth).value.grouped
  {
    var ws := t.Renderable(root, g);
    InTreeOfMembers(t, ws);
    var start := Pass(ws, g, []);
    SiblingRunSucceeds(t, ws, start, min);
    RunFollows(t, BySiblingCount(min), ws, start);
    RunStaysInTree(t, BySiblingCount(min), ws, start);
    var s1 := SiblingPass(t, start, min).value;
    if |s1.working| > 0 {
      DepthPassEmpties(t, s1, depth);
    }
  }

  lemma NoneLeft(xs: seq<ItemId>, ws: seq<ItemId>)
    requires forall y :: y in ws ==> y in xs
    requires forall k :: 0 <= k < |xs| ==> xs[k] !in ws
    ensures ws == []
  {
    EmptyWithoutMembers(ws);
  }

  lemma EmptyWithoutMembers(ws: seq<ItemId>)
    ensures (forall y :: y !in ws) ==> ws == []
  {
    if ws != [] {
      assert ws[0] in ws;
    }
  }

  /** The depth pass empties a good working set, grouping every item of it. */
  lemma DepthPassEmpties(t: Arena, s1: Pass, depth: int)
    requires t.Valid() && t.Consistent() && t.Placed() && depth >= 1
    requires Good(t, s1) && InTree(t, s1.working)
    ensures DepthPass(t, s1, depth).Success?
    ensures |DepthPass(t, s1, depth).value.working| == 0
    ensures s1.grouped <= DepthPass(t, s1, depth).value.grouped
    ensures forall y :: y in s1.working ==> y in DepthPass(t, s1, depth).value.grouped
  {
    forall k | 0 <= k < |s1.working| ensures t.ItemDepth(s1.working[k]).Success? {
      t.PlacedHasPath(s1.working[k]);
    }
    var sorted := SortByDepth(t, s1.working).value;
    var start2 := s1.(working := sorted);
    forall y | y in sorted ensures y in s1.working {
      assert y in multiset(s1.working);
    }
    DepthRunEmpties(t, sorted, start2, depth);
    RunFollows(t, ByDepth(depth), sorted, start2);
    var s2 := Run(t, ByDepth(depth), sorted, start2).value;
    NoneLeft(sorted, s2.working);
    forall y | y in s1.working ensures y in s2.grouped {
      assert y in multiset(sorted);
    }
  }

  // ---------------------------------------------------------------------------
  // What the groups yield

  /**
   * The names a consumer of `getGroupedItems` reads off one group: the fully
   * qualified name of a single item, or the namespace, a `\` and each name
   * of a group.
   */
  function Spelled(gr: Group): (r: seq<String>)
    ensures gr.Single? ==> r == [gr.fqn]
    ensures gr.Grouped? ==> |r| == |gr.names| && forall k :: 0 <= k < |r| ==> r[k] == gr.namespace + "\\" + gr.names[k]
  {
    match gr
    case Single(f) => [f]
    case Grouped(ns, names) => seq(|names|, k requires 0 <= k < |names| => ns + "\\" + names[k])
  }

  /** The names read off a sequence of groups, in order. */
  function Names(gs: seq<Group>): (r: seq<String>)
    ensures gs != [] ==> Names(gs) == Names(gs[..|gs| - 1]) + Spelled(gs[|gs| - 1])
  {
    if gs == [] then [] else Names(gs[..|gs| - 1]) + Spelled(gs[|gs| - 1])
  }

  lemma NamesSnoc(gs: seq<Group>, gr: Group)
    ensures Names(gs + [gr]) == Names(gs) + Spelled(gr)
  {
    assert (gs + [gr])[..|gs|] == gs;
  }

  /** A list without repeated ids has as many ids as its set. */
  lemma {:induction false} SetOfUnique(xs: seq<ItemId>)
    requires Unique(xs)
    ensures |SetOf(xs)| == |xs|
    decreases |xs|
  {
    if xs != [] {
      var front := xs[..|xs| - 1];
      SetOfUnique(front);
      assert xs == front + [xs[|xs| - 1]];
      assert SetOf(xs) == SetOf(front) + {xs[|xs| - 1]};
    }
  }

  lemma SetOfInside(xs: seq<ItemId>, u: set<ItemId>, g: set<ItemId>)
    requires forall k :: 0 <= k < |xs| ==> xs[k] in u && xs[k] !in g
    ensures SetOf(xs) <= u && SetOf(xs) !! g
  {
    forall y | y in SetOf(xs) ensures y in u && y !in g {
      var k :| 0 <= k < |xs| && xs[k] == y;
    }
  }

  /** `array_filter` keeps the ids apart. */
  lemma {:induction false} WithinDepthUnique(t: Arena, ys: seq<ItemId>, d: nat)
    requires t.Valid() && InTree(t, ys) && Unique(ys) && WithinDepth(t, ys, d).Success?
    ensures Unique(WithinDepth(t, ys, d).value)
    decreases |ys|
  {
    if ys != [] {
      var front := ys[..|ys| - 1];
      WithinDepthUnique(t, front, d);
    }
  }

  /**
   * Every item grouped so far lies in `u`, and its fully qualified name is
   * among the names yielded, which are exactly as many as the grouped items.
   */
  ghost predicate Accounted(t: Arena, u: set<ItemId>, st: Pass)
    requires t.Valid()
    reads t`items, t`containers
  {
    st.grouped <= u && |Names(st.groups)| == |st.grouped| &&
    forall y :: y in st.grouped ==>
      y < |t.items| && t.FullName(y, true, None).Success? && t.FullName(y, true, None).value in Names(st.groups)
  }

  /** Grouping the new items `s` under one new group whose names are theirs keeps the account. */
  lemma AccountStep(t: Arena, u: set<ItemId>, st: Pass, s: set<ItemId>, gr: Group, st2: Pass)
    requires t.Valid() && Accounted(t, u, st)
    requires s !! st.grouped && s <= u && |s| == |Spelled(gr)|
    requires forall y :: y in s ==>
      y < |t.items| && t.FullName(y, true, None).Success? && t.FullName(y, true, None).value in Spelled(gr)
    requires st2.grouped == st.grouped + s
    requires |st2.groups| == |st.groups| + 1 && st2.groups[..|st.groups|] == st.groups && st2.groups[|st.groups|] == gr
    ensures Accounted(t, u, st2)
  {
    SnocOf(st.groups, st2.groups);
    NamesSnoc(st.groups, gr);
    assert |st.grouped + s| == |st.grouped| + |s|;
  }

  /** A sequence one longer than its prefix `xs` is `xs` and its last element. */
  lemma SnocOf(xs: seq<Group>, ys: seq<Group>)
    requires |ys| == |xs| + 1 && ys[..|xs|] == xs
    ensures ys == xs + [ys[|xs|]]
  {
    assert ys == ys[..|xs|] + [ys[|xs|]];
  }

  /** When namespace, `\` and each name give the items' fully qualified names, the group spells out each of them. */
  lemma SpelledGroup(t: Arena, ys: seq<ItemId>, gr: Group)
    requires t.Valid() && InTree(t, ys) && gr.Grouped? && |gr.names| == |ys|
    requires forall k :: 0 <= k < |ys| ==> t.FullName(ys[k], true, None) == Success(gr.namespace + "\\" + gr.names[k])
    ensures forall y :: y in SetOf(ys) ==>
      y < |t.items| && t.FullName(y, true, None).Success? && t.FullName(y, true, None).value in Spelled(gr)
  {
    forall y | y in SetOf(ys)
      ensures y < |t.items| && t.FullName(y, true, None).Success? && t.FullName(y, true, None).value in Spelled(gr)
    {
      var k :| 0 <= k < |ys| && ys[k] == y;
      assert Spelled(gr)[k] == t.FullName(y, true, None).value;
    }
  }

  lemma AloneAccounted(t: Arena, u: set<ItemId>, y: ItemId, st: Pass)
    requires t.Valid() && t.Placed() && y < |t.items| && Accounted(t, u, st)
    requires y in u && y !in st.grouped
    ensures Alone(t, y, st).Success? && Accounted(t, u, Alone(t, y, st).value)
  {
    AloneSucceeds(t, y, st);
    var st2 := Alone(t, y, st).value;
    AccountStep(t, u, st, {y}, st2.groups[|st.groups|], st2);
  }

  /**
   * Every item in a container of `u` that has one grouped item is grouped:
   * the sibling step groups whole containers.
   */
  ghost predicate SiblingClosed(t: Arena, u: set<ItemId>, grouped: set<ItemId>)
    requires t.Valid()
    reads t`items, t`containers
  {
    forall y, z :: y in grouped && z in u && y < |t.items| && z < |t.items| && t.items[z].container == t.items[y].container ==> z in grouped
  }

  /** The renderable items of the root-level container `root`, as a set. */
  ghost predicate Covers(t: Arena, root: ContainerId, u: set<ItemId>)
    reads t`items, t`containers
  {
    t.Valid() && t.Consistent() && t.Placed() && t.Named() &&
    root < |t.containers| && t.containers[root].parent.None? && u == SetOf(t.Renderable(root, {}))
  }

  /** An item of the tree that is a sibling belongs to `u`, and every item of `u` belongs to the tree. */
  lemma CoversSubtree(t: Arena, root: ContainerId, u: set<ItemId>)
    requires Covers(t, root, u)
    ensures forall y :: y in u ==> t.InSubtree(root, y) && t.IsSibling(y)
    ensures forall y :: t.InSubtree(root, y) && t.IsSibling(y) ==> y in u
  {
    t.RenderableInSubtree(root, {});
    forall y | t.InSubtree(root, y) && t.IsSibling(y) ensures y in u {
      t.SubtreeRenderable(root, y, {});
    }
  }

  /**
   * A group yielded by the sibling step holds every sibling of the item's
   * container under the item's namespace, and that namespace, a `\` and
   * each name give the fully qualified name of the sibling.
   */
  lemma SiblingGroupIsRelative(t: Arena, x: ItemId, st: Pass, min: int)
    requires t.Valid() && t.Consistent() && t.Placed() && t.Named() && x < |t.items|
    requires SiblingStep(t, x, st, min).Success? && SiblingStep(t, x, st, min).value != st
    ensures var c := t.Container(x).value; var siblings := t.Siblings(c);
      var r := SiblingStep(t, x, st, min).value;
      r.grouped == st.grouped + SetOf(siblings) &&
      |r.groups| == |st.groups| + 1 && r.groups[..|st.groups|] == st.groups &&
      var g := r.groups[|st.groups|];
      g.Grouped? && g.namespace == t.Namespace(x, None).value && |g.names| == |siblings| &&
      forall k :: 0 <= k < |siblings| ==>
        t.items[siblings[k]].container == Some(c) && g.names[k] == t.Name(siblings[k], true) &&
        t.FullName(siblings[k], true, None) == Success(g.namespace + "\\" + g.names[k])
  {
    var c := t.Container(x).value;
    var siblings := t.Siblings(c);
    var ns := t.Namespace(x, None).value;
    var names := SiblingNames(t, siblings);
    forall k | 0 <= k < |siblings|
      ensures t.items[siblings[k]].container == Some(c)
      ensures t.FullName(siblings[k], true, None) == Success(ns + "\\" + names[k])
    {
      t.SiblingIsEntry(c, siblings[k]);
      t.SiblingFullName(x, siblings[k], t.containers[c].parent.value);
    }
  }

  /** The siblings of a container holding an ungrouped item of `u` lie in `u` and are not grouped yet. */
  lemma SiblingsUngrouped(t: Arena, root: ContainerId, u: set<ItemId>, x: ItemId, grouped: set<ItemId>)
    requires Covers(t, root, u) && x in u && x !in grouped && SiblingClosed(t, u, grouped)
    requires x < |t.items| && t.items[x].container.Some?
    ensures t.items[x].container.value < |t.containers|
    ensures forall y :: y in t.Siblings(t.items[x].container.value) ==> y !in grouped && y in u
  {
    CoversSubtree(t, root, u);
    var c0 := t.Container(x);
    var c := t.items[x].container.value;
    forall y | y in t.Siblings(c) ensures y !in grouped && y in u {
      t.SiblingIsEntry(c, y);
      t.NeighbourInSubtree(root, x, y);
    }
  }

  /** Grouping all siblings of a container keeps whole containers grouped. */
  lemma SiblingsKeepClosed(t: Arena, u: set<ItemId>, grouped: set<ItemId>, c: ContainerId)
    requires t.Valid() && t.Consistent() && c < |t.containers| && SiblingClosed(t, u, grouped)
    requires forall z :: z in u ==> z < |t.items| && t.IsSibling(z)
    ensures SiblingClosed(t, u, grouped + SetOf(t.Siblings(c)))
  {
    forall y, z | y in grouped + SetOf(t.Siblings(c)) && z in u && y < |t.items| && z < |t.items| &&
      t.items[z].container == t.items[y].container
      ensures z in grouped + SetOf(t.Siblings(c))
    {
      if y !in grouped {
        t.SiblingIsEntry(c, y);
        t.EntryIsSibling(c, z);
      }
    }
  }

  lemma SiblingStepAccounted(t: Arena, root: ContainerId, u: set<ItemId>, x: ItemId, st: Pass, min: int)
    requires Covers(t, root, u) && x in u && Accounted(t, u, st) && SiblingClosed(t, u, st.grouped)
    ensures x < |t.items| && SiblingStep(t, x, st, min).Success?
    ensures Accounted(t, u, SiblingStep(t, x, st, min).value)
  {
    CoversSubtree(t, root, u);
    SiblingStepSucceeds(t, x, st, min);
    var r := SiblingStep(t, x, st, min).value;
    if r != st {
      SiblingGroupIsRelative(t, x, st, min);
      SiblingsUngrouped(t, root, u, x, st.grouped);
      var c := t.Container(x).value;
      var siblings := t.Siblings(c);
      var gr := r.groups[|st.groups|];
      t.SiblingsUnique(c);
      SetOfUnique(siblings);
      SpelledGroup(t, siblings, gr);
      AccountStep(t, u, st, SetOf(siblings), gr, r);
    }
  }

  lemma SiblingStepClosed(t: Arena, root: ContainerId, u: set<ItemId>, x: ItemId, st: Pass, min: int)
    requires Covers(t, root, u) && x in u && SiblingClosed(t, u, st.grouped)
    ensures x < |t.items| && SiblingStep(t, x, st, min).Success?
    ensures SiblingClosed(t, u, SiblingStep(t, x, st, min).value.grouped)
  {
    CoversSubtree(t, root, u);
    SiblingStepSucceeds(t, x, st, min);
    if SiblingStep(t, x, st, min).value != st {
      SiblingsKeepClosed(t, u, st.grouped, t.Container(x).value);
    }
  }

  /**
   * The items found under the ancestor `p` of an item of `u` are new items
   * of `u`, each once.
   */
  lemma ItemsUnderFresh(t: Arena, root: ContainerId, u: set<ItemId>, x: ItemId, st: Pass, depth: int)
    requires Covers(t, root, u) && x in u && depth >= 1
    requires x < |t.items| && t.Parent(x, depth).Success? && t.Parent(x, depth).value.Some?
    ensures var p := t.Parent(x, depth).value.value;
      ItemsUnder(t, x, st, p).Success? &&
      var group := ItemsUnder(t, x, st, p).value;
      Unique(group) && forall k :: 0 <= k < |group| ==> group[k] in u && group[k] !in st.grouped && t.Below(group[k], p)
  {
    CoversSubtree(t, root, u);
    ItemsUnderAreBelow(t, x, st, depth);
    t.AncestorInSubtree(root, x, depth);
    var p := t.Parent(x, depth).value.value;
    var found := t.Renderable(t.Children(p), st.grouped);
    var group := ItemsUnder(t, x, st, p).value;
    forall k | 0 <= k < |group| ensures group[k] in u && group[k] !in st.grouped {
      t.BelowInSubtree(root, group[k], p);
      assert group[k] in found;
    }
    t.RenderableUnique(t.Children(p), st.grouped);
    InTreeOfMembers(t, found);
    WithinDepthUnique(t, found, t.ItemDepth(x).value);
  }

  lemma DepthStepAccounted(t: Arena, root: ContainerId, u: set<ItemId>, x: ItemId, st: Pass, depth: int)
    requires Covers(t, root, u) && x in u && Accounted(t, u, st) && depth >= 1
    ensures x < |t.items| && DepthStep(t, x, st, depth).Success?
    ensures Accounted(t, u, DepthStep(t, x, st, depth).value)
  {
    CoversSubtree(t, root, u);
    t.PlacedHasPath(x);
    t.ParentIsNullIffShallow(x, depth);
    if x !in st.grouped {
      match t.Parent(x, depth).value
      case None =>
        AloneAccounted(t, u, x, st);
      case Some(p) =>
        ItemsUnderFresh(t, root, u, x, st, depth);
        var group := ItemsUnder(t, x, st, p).value;
        if |group| == 1 {
          AloneAccounted(t, u, group[0], st);
        } else {
          GroupFoundAccounted(t, u, group, st, p);
        }
    }
  }

  /** A group of several new items of `u` below `p` keeps the account. */
  lemma GroupFoundAccounted(t: Arena, u: set<ItemId>, group: seq<ItemId>, st: Pass, p: ItemId)
    requires t.Valid() && t.Placed() && t.Named() && InTree(t, group) && p < |t.items| && |group| != 1
    requires Accounted(t, u, st) && Unique(group)
    requires forall k :: 0 <= k < |group| ==> group[k] in u && group[k] !in st.grouped && t.Below(group[k], p)
    ensures GroupFound(t, group, st, p).Success? && Accounted(t, u, GroupFound(t, group, st, p).value)
  {
    GroupFoundIsRelative(t, group, st, p);
    var r := GroupFound(t, group, st, p).value;
    var gr := r.groups[|st.groups|];
    SetOfUnique(group);
    SetOfInside(group, u, st.grouped);
    SpelledGroup(t, group, gr);
    AccountStep(t, u, st, SetOf(group), gr, r);
  }

  /** The sibling pass over items of `u` keeps the account and groups whole containers. */
  lemma {:induction false} SiblingRunAccounted(t: Arena, root: ContainerId, u: set<ItemId>, snap: seq<ItemId>, start: Pass, min: int)
    requires Covers(t, root, u) && InTree(t, snap) && forall k :: 0 <= k < |snap| ==> snap[k] in u
    requires Accounted(t, u, start) && SiblingClosed(t, u, start.grouped)
    ensures Run(t, BySiblingCount(min), snap, start).Success?
    ensures Accounted(t, u, Run(t, BySiblingCount(min), snap, start).value)
    ensures SiblingClosed(t, u, Run(t, BySiblingCount(min), snap, start).value.grouped)
    decreases |snap|
  {
    if snap != [] {
      var front := snap[..|snap| - 1];
      SiblingRunAccounted(t, root, u, front, start, min);
      SiblingStepAccounted(t, root, u, snap[|snap| - 1], Run(t, BySiblingCount(min), front, start).value, min);
      SiblingStepClosed(t, root, u, snap[|snap| - 1], Run(t, BySiblingCount(min), front, start).value, min);
    }
  }

  /** The depth pass over items of `u` keeps the account. */
  lemma {:induction false} DepthRunAccounted(t: Arena, root: ContainerId, u: set<ItemId>, snap: seq<ItemId>, start: Pass, depth: int)
    requires Covers(t, root, u) && InTree(t, snap) && forall k :: 0 <= k < |snap| ==> snap[k] in u
    requires Accounted(t, u, start) && depth >= 1
    ensures Run(t, ByDepth(depth), snap, start).Success?
    ensures Accounted(t, u, Run(t, ByDepth(depth), snap, start).value)
    decreases |snap|
  {
    if snap != [] {
      var front := snap[..|snap| - 1];
      DepthRunAccounted(t, root, u, front, start, depth);
      DepthStepAccounted(t, root, u, snap[|snap| - 1], Run(t, ByDepth(depth), front, start).value, depth);
    }
  }

  /** The depth pass over a working set inside `u` keeps the account and empties it. */
  lemma DepthPassAccounted(t: Arena, root: ContainerId, u: set<ItemId>, s1: Pass, depth: int)
    requires Covers(t, root, u) && Accounted(t, u, s1) && depth >= 1
    requires Good(t, s1) && InTree(t, s1.working) && forall y :: y in s1.working ==> y in u
    ensures DepthPass(t, s1, depth).Success?
    ensures Accounted(t, u, DepthPass(t, s1, depth).value)
  {
    forall k | 0 <= k < |s1.working| ensures t.ItemDepth(s1.working[k]).Success? {
      t.PlacedHasPath(s1.working[k]);
    }
    var sorted := SortByDepth(t, s1.working).value;
    forall k | 0 <= k < |sorted| ensures sorted[k] in u {
      assert sorted[k] in multiset(s1.working);
    }
    DepthRunAccounted(t, root, u, sorted, s1.(working := sorted), depth);
  }

  /**
   * `getGroupedItems` on a root-level container of a well-formed tree with
   * `$group_depth_count >= 1` yields, for every renderable item, its fully
   * qualified name (alone, or as namespace, `\` and name within a group),
   * and yields exactly as many names as there are renderable items.
   */
  lemma GroupedItemsYieldEach(t: Arena, root: ContainerId, min: int, depth: int)
    requires t.Valid() && t.Consistent() && t.Placed() && t.Named() && depth >= 1
    requires root < |t.containers| && t.containers[root].parent.None?
    ensures GroupedItems(t, root, {}, min, depth).Success?
    ensures var r := GroupedItems(t, root, {}, min, depth).value;
      |Names(r.groups)| == |t.Renderable(root, {})| &&
      forall y :: y in t.Renderable(root, {}) ==>
        t.FullName(y, true, None).Success? && t.FullName(y, true, None).value in Names(r.groups)
  {
    GroupedItemsSucceed(t, root, {}, min, depth);
    var ws := t.Renderable(root, {});
    var u := SetOf(ws);
    InTreeOfMembers(t, ws);
    var start := Pass(ws, {}, []);
    assert Accounted(t, u, start);
    SiblingRunAccounted(t, root, u, ws, start, min);
    RunFollows(t, BySiblingCount(min), ws, start);
    RunStaysInTree(t, BySiblingCount(min), ws, start);
    var s1 := SiblingPass(t, start, min).value;
    if |s1.working| > 0 {
      DepthPassAccounted(t, root, u, s1, depth);
    }
    var r := GroupedItems(t, root, {}, min, depth).value;
    assert Accounted(t, u, r);
    assert r.grouped == u;
    t.RenderableUnique(root, {});
    SetOfUnique(ws);
  }

  // ---------------------------------------------------------------------------
  // The generators, on the arena's `grouped` flags

  /** Yields one item alone and flags it grouped. */
  method GroupAlone(t: Arena, x: ItemId, st: Pass) returns (r: Result<Pass, TreeError>)
    requires t.Valid() && x < |t.items| && t.grouped == st.grouped
    modifies t`grouped
    ensures r == Alone(t, x, st)
    ensures r.Success? ==> t.grouped == r.value.grouped
  {
    var fqn := t.FullName(x, true, None);
    if fqn.Failure? {
      return Failure(fqn.error);
    }
    t.grouped := t.grouped + {x};
    return Success(Pass(Remove(st.working, {x}), t.grouped, st.groups + [Single(fqn.value)]));
  }

  /**
   * The inner loop over the siblings: each one named and unset from the
   * working set; all of them end up flagged grouped.
   */
  method FlagSiblings(t: Arena, xs: seq<ItemId>, st: Pass) returns (working: seq<ItemId>, names: seq<String>)
    requires t.Valid() && InTree(t, xs) && t.grouped == st.grouped
    modifies t`grouped
    ensures names == SiblingNames(t, xs)
    ensures working == Remove(st.working, SetOf(xs))
    ensures t.grouped == st.grouped + SetOf(xs)
  {
    names := [];
    working := st.working;
    RemoveNothing(st.working);
    assert SetOf(xs[..0]) == {};
    for k := 0 to |xs|
      invariant names == SiblingNames(t, xs[..k])
      invariant working == Remove(st.working, SetOf(xs[..k]))
      invariant t.grouped == st.grouped
    {
      SiblingNamesStep(t, xs, k);
      RemoveStep(st.working, xs, k);
      names := names + [t.Name(xs[k], true)];
      working := Remove(working, {xs[k]});
    }
    assert xs[..|xs|] == xs;
    t.grouped := t.grouped + SetOf(xs);
  }

  /**
   * The inner loop over a depth group: each item named relative to `p`,
   * flagged grouped and unset; a name that cannot be built stops it.
   */
  method FlagGroup(t: Arena, xs: seq<ItemId>, p: ItemId, st: Pass) returns (working: seq<ItemId>, names: Result<seq<String>, TreeError>)
    requires t.Valid() && InTree(t, xs) && t.grouped == st.grouped
    modifies t`grouped
    ensures names == FullNames(t, xs, Some(p))
    ensures names.Success? ==> working == Remove(st.working, SetOf(xs)) && t.grouped == st.grouped + SetOf(xs)
  {
    var done: seq<String> := [];
    working := st.working;
    RemoveNothing(st.working);
    assert SetOf(xs[..0]) == {};
    for k := 0 to |xs|
      invariant FullNames(t, xs[..k], Some(p)) == Success(done)
      invariant working == Remove(st.working, SetOf(xs[..k]))
      invariant t.grouped == st.grouped + SetOf(xs[..k])
    {
      var fqn := t.FullName(xs[k], true, Some(p));
      FullNamesStep(t, xs, k, Some(p), done);
      if fqn.Failure? {
        FullNamesStopsAtFailure(t, xs, k + 1, Some(p));
        return working, Failure(fqn.error);
      }
      t.grouped := t.grouped + {xs[k]};
      FullNamesStep(t, xs, k, Some(p), done);
      RemoveStep(st.working, xs, k);
      done := done + [fqn.value];
      working := Remove(working, {xs[k]});
    }
    assert xs[..|xs|] == xs;
    names := Success(done);
  }

  /** The body of the `groupItemsBySiblingCount` loop for the item `x`. */
  method GroupSiblingsOf(t: Arena, x: ItemId, st: Pass, min: int) returns (r: Result<Pass, TreeError>)
    requires t.Valid() && x < |t.items| && t.grouped == st.grouped
    modifies t`grouped
    ensures r == SiblingStep(t, x, st, min)
    ensures r.Success? ==> t.grouped == r.value.grouped
  {
    if x in t.grouped {
      return Success(st);
    }
    var container := t.Container(x);
    if container.Failure? {
      return Failure(container.error);
    }
    if t.containers[container.value].parent.None? {
      return Success(st);
    }
    var siblings := t.GetSiblings(container.value);
    if |siblings| < min {
      return Success(st);
    }
    var working, names := FlagSiblings(t, siblings, st);
    var namespace := t.Namespace(x, None);
    if namespace.Failure? {
      return Failure(namespace.error);
    }
    return Success(Pass(working, t.grouped, st.groups + [Grouped(namespace.value, names)]));
  }

  /** The body of the `groupItemsByDepthFromBranchEnd` loop for the item `x`. */
  method GroupByDepthOf(t: Arena, x: ItemId, st: Pass, depth: int) returns (r: Result<Pass, TreeError>)
    requires t.Valid() && x < |t.items| && t.grouped == st.grouped
    modifies t`grouped
    ensures r == DepthStep(t, x, st, depth)
    ensures r.Success? ==> t.grouped == r.value.grouped
  {
    if x in t.grouped {
      return Success(st);
    }
    var parent := t.GetParent(x, depth);
    if parent.Failure? {
      return Failure(parent.error);
    }
    if parent.value.None? {
      r := GroupAlone(t, x, st);
      return;
    }
    r := GroupUnderParent(t, x, st, parent.value.value);
  }

  /** The rest of that body, once the ancestor `p` is found. */
  method GroupUnderParent(t: Arena, x: ItemId, st: Pass, p: ItemId) returns (r: Result<Pass, TreeError>)
    requires t.Valid() && x < |t.items| && p < |t.items| && t.grouped == st.grouped
    modifies t`grouped
    ensures r == GroupUnder(t, x, st, p)
    ensures r.Success? ==> t.grouped == r.value.grouped
  {
    var found := t.GetRenderableItems(t.Children(p));
    InTreeOfMembers(t, found);
    var itemDepth := t.ItemDepth(x);
    if itemDepth.Failure? {
      return Failure(itemDepth.error);
    }
    var filtered := WithinDepth(t, found, itemDepth.value);
    if filtered.Failure? {
      return Failure(filtered.error);
    }
    r := YieldFound(t, filtered.value, st, p);
  }

  /** The end of that body: the group yielded and its items flagged and unset. */
  method YieldFound(t: Arena, group: seq<ItemId>, st: Pass, p: ItemId) returns (r: Result<Pass, TreeError>)
    requires t.Valid() && InTree(t, group) && p < |t.items| && t.grouped == st.grouped
    modifies t`grouped
    ensures r == GroupFound(t, group, st, p)
    ensures r.Success? ==> t.grouped == r.value.grouped
  {
    if |group| == 1 {
      r := GroupAlone(t, group[0], st);
      return;
    }
    var working, names := FlagGroup(t, group, p, st);
    if names.Failure? {
      return Failure(names.error);
    }
    var namespace := t.FullName(p, false, None);
    if namespace.Failure? {
      return Failure(namespace.error);
    }
    return Success(Pass(working, t.grouped, st.groups + [Grouped(namespace.value, names.value)]));
  }

  /** A `foreach` over the snapshot `snap`, stopping at the first exception. */
  method RunPass(t: Arena, rule: Rule, snap: seq<ItemId>, start: Pass) returns (r: Result<Pass, TreeError>)
    requires t.Valid() && InTree(t, snap) && t.grouped == start.grouped
    modifies t`grouped
    ensures r == Run(t, rule, snap, start)
    ensures r.Success? ==> t.grouped == r.value.grouped
  {
    var st := start;
    for k := 0 to |snap|
      invariant Run(t, rule, snap[..k], start) == Success(st)
      invariant t.grouped == st.grouped
    {
      assert snap[..k + 1][..k] == snap[..k];
      var next: Result<Pass, TreeError>;
      match rule {
        case BySiblingCount(min) => next := GroupSiblingsOf(t, snap[k], st, min);
        case ByDepth(depth) => next := GroupByDepthOf(t, snap[k], st, depth);
      }
      if next.Failure? {
        RunStopsAtFailure(t, rule, snap, k + 1, start);
        return next;
      }
      st := next.value;
    }
    assert snap[..|snap|] == snap;
    return Success(st);
  }

  /** `groupItemsBySiblingCount`. */
  method GroupBySiblingCount(t: Arena, st: Pass, min: int) returns (r: Result<Pass, TreeError>)
    requires t.Valid() && InTree(t, st.working) && t.grouped == st.grouped
    modifies t`grouped
    ensures r == SiblingPass(t, st, min)
    ensures r.Success? ==> t.grouped == r.value.grouped
  {
    r := RunPass(t, BySiblingCount(min), st.working, st);
  }

  /** `groupItemsByDepthFromBranchEnd`: `uasort`, then the walk. */
  method GroupByDepthFromBranchEnd(t: Arena, st: Pass, depth: int) returns (r: Result<Pass, TreeError>)
    requires t.Valid() && InTree(t, st.working) && t.grouped == st.grouped
    modifies t`grouped
    ensures r == DepthPass(t, st, depth)
    ensures r.Success? ==> t.grouped == r.value.grouped
  {
    var sorted := SortByDepth(t, st.working);
    if sorted.Failure? {
      return Failure(sorted.error);
    }
    r := RunPass(t, ByDepth(depth), sorted.value, st.(working := sorted.value));
  }

  /**
   * `getGroupedItems` on the container `root`: the groups it yields, or the
   * exception it throws, and the `grouped` flags it leaves set.
   */
  method GetGroupedItems(t: Arena, root: ContainerId, min: int, depth: int) returns (r: Result<seq<Group>, TreeError>)
    requires t.Valid() && root < |t.containers|
    modifies t`grouped
    ensures var spec := GroupedItems(t, root, old(t.grouped), min, depth);
      r.Success? == spec.Success? &&
      (r.Failure? ==> r.error == spec.error) &&
      (r.Success? ==> r.value == spec.value.groups && t.grouped == spec.value.grouped)
  {
    ghost var g := t.grouped;
    var ws := t.GetRenderableItems(root);
    InTreeOfMembers(t, ws);
    var start := Pass(ws, t.grouped, []);
    var s1 := GroupBySiblingCount(t, start, min);
    if s1.Failure? {
      GroupedItemsSteps(t, root, g, min, depth, ws, s1, s1);
      return Failure(s1.error);
    }
    RunStaysInTree(t, BySiblingCount(min), ws, start);
    var st := s1.value;
    var s2 := Success(st);
    if |st.working| > 0 {
      s2 := GroupByDepthFromBranchEnd(t, st, depth);
      if s2.Failure? {
        GroupedItemsSteps(t, root, g, min, depth, ws, s1, s2);
        return Failure(s2.error);
      }
      st := s2.value;
    }
    GroupedItemsSteps(t, root, g, min, depth, ws, s1, s2);
    if |st.working| != 0 {
      return Failure(Ungrouped);
    }
    return Success(st.groups);
  }
}
