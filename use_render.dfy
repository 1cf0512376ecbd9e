/**
 * Rendering the built statements of one kind: grouping by namespace,
 * promoting root names and single-name namespaces to stand-alone names,
 * sorting by key, merging runs of stand-alone names into one comma-separated
 * statement, and laying out each statement within the maximum line length.
 */
module UseRender {

  import opened Wrappers
  import opened Strings
  import opened UseTree

  /** The kind of import, written after `use`. */
  datatype Kind = ClassKind | ConstKind | FunctionKind

  function KindPrefix(k: Kind): String {
    match k
    case ConstKind => "const "
    case FunctionKind => "function "
    case ClassKind => ""
  }

  // ---------------------------------------------------------------------------
  // The working table: an insertion-ordered map from keys to a list of names
  // (a namespace) or to `true` (a name written on its own)

  datatype Slot = Group(names: seq<String>) | Single

  datatype Binding = Binding(key: String, slot: Slot)

  function Keys(t: seq<Binding>): (r: seq<String>)
    ensures |r| == |t|
  {
    if t == [] then [] else [t[0].key] + Keys(t[1..])
  }

  lemma {:induction false} KeysAt(t: seq<Binding>, i: nat)
    requires i < |t|
    ensures Keys(t)[i] == t[i].key
  {
    if i > 0 {
      KeysAt(t[1..], i - 1);
    }
  }

  /** `$t[$k] ?? null`. */
  function Find(t: seq<Binding>, k: String): (r: Option<Slot>)
    ensures r.Some? ==> Binding(k, r.value) in t
  {
    if t == [] then None
    else if t[0].key == k then Some(t[0].slot)
    else Find(t[1..], k)
  }

  /** A key is missing exactly when no binding carries it. */
  lemma {:induction false} FindNone(t: seq<Binding>, k: String)
    ensures Find(t, k).None? <==> k !in Keys(t)
  {
    if t != [] {
      FindNone(t[1..], k);
      assert Keys(t) == [t[0].key] + Keys(t[1..]);
    }
  }

  /** `$t[$k] = $v`: in place when the key exists, else appended. */
  function Set(t: seq<Binding>, k: String, v: Slot): (r: seq<Binding>)
    ensures |r| == if Find(t, k).Some? then |t| else |t| + 1
  {
    if t == [] then [Binding(k, v)]
    else if t[0].key == k then [Binding(k, v)] + t[1..]
    else [t[0]] + Set(t[1..], k, v)
  }

  /** The keys keep their order; a new key goes at the end. */
  lemma {:induction false} SetKeys(t: seq<Binding>, k: String, v: Slot)
    ensures Keys(Set(t, k, v)) == if k in Keys(t) then Keys(t) else Keys(t) + [k]
  {
    if t != [] {
      assert Keys(t) == [t[0].key] + Keys(t[1..]);
      if t[0].key == k {
        assert Keys([Binding(k, v)] + t[1..]) == [k] + Keys(t[1..]);
      } else {
        SetKeys(t[1..], k, v);
        var rest := Set(t[1..], k, v);
        assert Keys([t[0]] + rest) == [t[0].key] + Keys(rest);
      }
    }
  }

  lemma {:induction false} FindSet(t: seq<Binding>, k: String, v: Slot, k': String)
    ensures Find(Set(t, k, v), k') == if k' == k then Some(v) else Find(t, k')
  {
    if t != [] && t[0].key != k {
      FindSet(t[1..], k, v, k');
      assert ([t[0]] + Set(t[1..], k, v))[1..] == Set(t[1..], k, v);
    }
  }

  /** `unset($t[$k])`. */
  function Unset(t: seq<Binding>, k: String): (r: seq<Binding>)
    ensures |r| <= |t|
  {
    if t == [] then []
    else if t[0].key == k then Unset(t[1..], k)
    else [t[0]] + Unset(t[1..], k)
  }

  /** The bindings left by `unset` are exactly those with another key. */
  lemma {:induction false} UnsetMember(t: seq<Binding>, k: String, b: Binding)
    ensures b in Unset(t, k) <==> b in t && b.key != k
  {
    if t != [] {
      UnsetMember(t[1..], k, b);
      assert b in t <==> b == t[0] || b in t[1..];
    }
  }

  /** No key occurs twice, as in every PHP array. */
  predicate DistinctKeys(t: seq<Binding>) {
    forall i, j :: 0 <= i < j < |t| ==> t[i].key != t[j].key
  }

  lemma {:induction false} UnsetKeepsDistinct(t: seq<Binding>, k: String)
    requires DistinctKeys(t)
    ensures DistinctKeys(Unset(t, k))
  {
    if t != [] {
      UnsetKeepsDistinct(t[1..], k);
      var rest := Unset(t[1..], k);
      if t[0].key != k {
        var r := [t[0]] + rest;
        forall i | 0 <= i < |rest| ensures rest[i].key != t[0].key {
          UnsetMember(t[1..], k, rest[i]);
          var j :| 0 <= j < |t[1..]| && t[1..][j] == rest[i];
          assert t[j + 1] == rest[i];
        }
        forall i, j | 0 <= i < j < |r| ensures r[i].key != r[j].key {
          assert r[j] == rest[j - 1];
          if i > 0 {
            assert r[i] == rest[i - 1];
          }
        }
      }
    }
  }

  lemma {:induction false} FindUnset(t: seq<Binding>, k: String, k': String)
    requires k' != k
    ensures Find(Unset(t, k), k') == Find(t, k')
  {
    if t != [] {
      FindUnset(t[1..], k, k');
      if t[0].key != k {
        assert ([t[0]] + Unset(t[1..], k))[1..] == Unset(t[1..], k);
      }
    }
  }

  /** After `unset`, the key is gone. */
  lemma {:induction false} FindUnsetSame(t: seq<Binding>, k: String)
    ensures Find(Unset(t, k), k).None?
  {
    if t != [] {
      FindUnsetSame(t[1..], k);
      if t[0].key != k {
        assert ([t[0]] + Unset(t[1..], k))[1..] == Unset(t[1..], k);
      }
    }
  }

  lemma {:induction false} SetMember(t: seq<Binding>, k: String, v: Slot, x: Binding)
    requires x in Set(t, k, v)
    ensures x == Binding(k, v) || x in t
  {
    if t != [] && t[0].key != k {
      if x != t[0] {
        SetMember(t[1..], k, v, x);
      }
    }
  }

  lemma {:induction false} SetKeepsDistinct(t: seq<Binding>, k: String, v: Slot)
    requires DistinctKeys(t)
    ensures DistinctKeys(Set(t, k, v))
  {
    if t != [] {
      var r := Set(t, k, v);
      if t[0].key == k {
        assert forall i :: 0 <= i < |r| ==> r[i].key == t[i].key;
      } else {
        SetKeepsDistinct(t[1..], k, v);
        var rest := Set(t[1..], k, v);
        assert r == [t[0]] + rest;
        forall i | 0 <= i < |rest| ensures rest[i].key != t[0].key {
          SetMember(t[1..], k, v, rest[i]);
          if rest[i] != Binding(k, v) {
            var j :| 0 <= j < |t[1..]| && t[1..][j] == rest[i];
            assert t[j + 1] == rest[i];
          }
        }
        forall i, j | 0 <= i < j < |r| ensures r[i].key != r[j].key {
          assert r[j] == rest[j - 1];
          if i > 0 {
            assert r[i] == rest[i - 1];
          }
        }
      }
    }
  }

  // ---------------------------------------------------------------------------
  // Grouping by namespace

  /** The names of the statements in namespace `ns`, in order. */
  function NamesIn(list: seq<Statement>, ns: String): (r: seq<String>)
    ensures |r| <= |list|
  {
    if list == [] then []
    else
      var last := list[|list| - 1];
      NamesIn(list[..|list| - 1], ns) + (if last.namespace == ns then [last.name] else [])
  }

  /** The names collected so far under `ns`. */
  function GroupNames(t: seq<Binding>, ns: String): seq<String> {
    match Find(t, ns)
    case Some(Group(names)) => names
    case _ => []
  }

  /** `$statements[$namespace] ??= []; $statements[$namespace][] = $class;` */
  function AddToGroup(t: seq<Binding>, st: Statement): seq<Binding> {
    Set(t, st.namespace, Group(GroupNames(t, st.namespace) + [st.name]))
  }

  /** The first loop of `renderStatements`, over the first `|list|` statements. */
  function Grouped(list: seq<Statement>): seq<Binding> {
    if list == [] then [] else AddToGroup(Grouped(list[..|list| - 1]), list[|list| - 1])
  }

  predicate HasNamespace(list: seq<Statement>, ns: String) {
    exists i :: 0 <= i < |list| && list[i].namespace == ns
  }

  /**
   * Each namespace of the statements becomes exactly one key, holding the
   * names of that namespace in their original order; no other key appears.
   */
  lemma {:induction false} GroupedByNamespace(list: seq<Statement>, ns: String)
    ensures Find(Grouped(list), ns) ==
      if HasNamespace(list, ns) then Some(Group(NamesIn(list, ns))) else None
  {
    if list != [] {
      var init := list[..|list| - 1];
      var st := list[|list| - 1];
      var t := Grouped(init);
      GroupedByNamespace(init, ns);
      var g := Group(GroupNames(t, st.namespace) + [st.name]);
      assert Grouped(list) == Set(t, st.namespace, g);
      FindSet(t, st.namespace, g, ns);
      if st.namespace == ns {
        assert HasNamespace(list, ns) by {
          assert list[|list| - 1].namespace == ns;
        }
        if !HasNamespace(init, ns) {
          NamesInAbsent(init, ns);
        }
        assert GroupNames(t, ns) == NamesIn(init, ns);
      } else {
        HasNamespaceInit(list, ns);
        assert NamesIn(list, ns) == NamesIn(init, ns);
        assert Find(Grouped(list), ns) == Find(t, ns);
        assert HasNamespace(list, ns) == HasNamespace(init, ns);
      }
    } else {
      assert !HasNamespace(list, ns);
    }
  }

  lemma HasNamespaceInit(list: seq<Statement>, ns: String)
    requires list != [] && list[|list| - 1].namespace != ns
    ensures HasNamespace(list, ns) <==> HasNamespace(list[..|list| - 1], ns)
  {
    var init := list[..|list| - 1];
    if HasNamespace(list, ns) {
      var i :| 0 <= i < |list| && list[i].namespace == ns;
      assert init[i] == list[i];
    }
    if HasNamespace(init, ns) {
      var i :| 0 <= i < |init| && init[i].namespace == ns;
      assert list[i] == init[i];
    }
  }

  /** The grouped table is a map: no namespace occurs twice. */
  lemma {:induction false} GroupedDistinct(list: seq<Statement>)
    ensures DistinctKeys(Grouped(list))
  {
    if list != [] {
      var init := list[..|list| - 1];
      var st := list[|list| - 1];
      GroupedDistinct(init);
      SetKeepsDistinct(Grouped(init), st.namespace, Group(GroupNames(Grouped(init), st.namespace) + [st.name]));
    }
  }

  lemma {:induction false} NamesInAbsent(list: seq<Statement>, ns: String)
    requires !HasNamespace(list, ns)
    ensures NamesIn(list, ns) == []
  {
    if list != [] {
      var init := list[..|list| - 1];
      assert forall i :: 0 <= i < |init| ==> init[i] == list[i];
      NamesInAbsent(init, ns);
    }
  }

  /** The grouping loop. */
  method GroupByNamespace(list: seq<Statement>) returns (t: seq<Binding>)
    ensures t == Grouped(list)
  {
    t := [];
    var i := 0;
    while i < |list|
      invariant 0 <= i <= |list|
      invariant t == Grouped(list[..i])
    {
      var st := list[i];
      var names := [];
      var found := Find(t, st.namespace);
      if found.Some? && found.value.Group? {
        names := found.value.names;
      }
      t := Set(t, st.namespace, Group(names + [st.name]));
      assert list[..i + 1][..i] == list[..i];
      i := i + 1;
    }
    assert list[..i] == list;
  }

  // ---------------------------------------------------------------------------
  // Root names and single-name namespaces

  /** Every name in `names` set to `true`, in order. */
  function SetSingles(t: seq<Binding>, names: seq<String>): seq<Binding> {
    if names == [] then t else Set(SetSingles(t, names[..|names| - 1]), names[|names| - 1], Single)
  }

  lemma {:induction false} FindSetSingles(t: seq<Binding>, names: seq<String>, k: String)
    ensures Find(SetSingles(t, names), k) == if k in names then Some(Single) else Find(t, k)
  {
    if names != [] {
      var init := names[..|names| - 1];
      var last := names[|names| - 1];
      FindSetSingles(t, init, k);
      FindSet(SetSingles(t, init), last, Single, k);
      assert names == init + [last];
      assert k in names <==> k in init || k == last;
    }
  }

  /** The root names, each written on its own under its own key, and the root key removed. */
  function PromoteRootSpec(t: seq<Binding>): seq<Binding> {
    match Find(t, RootNamespace)
    case Some(Group(classes)) => Unset(SetSingles(t, classes), RootNamespace)
    case _ => t
  }

  /** Root names become stand-alone keys, the root key disappears, and no other key changes. */
  lemma PromoteRootMoves(t: seq<Binding>, k: String)
    requires Find(t, RootNamespace).Some? && Find(t, RootNamespace).value.Group?
    ensures Find(PromoteRootSpec(t), RootNamespace).None?
    ensures k != RootNamespace && k in Find(t, RootNamespace).value.names ==> Find(PromoteRootSpec(t), k) == Some(Single)
    ensures k != RootNamespace && k !in Find(t, RootNamespace).value.names ==> Find(PromoteRootSpec(t), k) == Find(t, k)
  {
    var classes := Find(t, RootNamespace).value.names;
    FindUnsetSame(SetSingles(t, classes), RootNamespace);
    if k != RootNamespace {
      FindUnset(SetSingles(t, classes), RootNamespace, k);
      FindSetSingles(t, classes, k);
    }
  }

  /** The root step of `renderStatements`. */
  method PromoteRoot(t0: seq<Binding>) returns (t: seq<Binding>)
    ensures t == PromoteRootSpec(t0)
  {
    t := t0;
    var root := Find(t, RootNamespace);
    if root.Some? && root.value.Group? {
      var classes := root.value.names;
      var i := 0;
      while i < |classes|
        invariant 0 <= i <= |classes|
        invariant t == SetSingles(t0, classes[..i])
      {
        t := Set(t, classes[i], Single);
        assert classes[..i + 1][..i] == classes[..i];
        i := i + 1;
      }
      assert classes[..i] == classes;
      t := Unset(t, RootNamespace);
    }
  }

  /** The first name of a group, or nothing (PHP reads a missing `$names[0]` as null). */
  function FirstName(names: seq<String>): String {
    if names == [] then "" else names[0]
  }

  /** One step of the single-name pass: a namespace with at most one name becomes `namespace\name`. */
  function PromoteStep(cur: seq<Binding>, b: Binding): seq<Binding> {
    if b.slot.Group? && |b.slot.names| <= 1 then
      Unset(Set(cur, b.key + "\\" + FirstName(b.slot.names), Single), b.key)
    else cur
  }

  /** The single-name pass over the bindings of a snapshot, applied to `start`. */
  function PromoteAll(start: seq<Binding>, snapshot: seq<Binding>): seq<Binding> {
    if snapshot == [] then start
    else PromoteStep(PromoteAll(start, snapshot[..|snapshot| - 1]), snapshot[|snapshot| - 1])
  }

  /** The pass iterates over a copy of the table taken before it starts. */
  function PromoteSinglesSpec(t: seq<Binding>): seq<Binding> {
    PromoteAll(t, t)
  }

  /**
   * After the pass has visited the first `n` bindings of the snapshot, every
   * namespace still in the table is one of the original bindings, and it
   * has at least two names unless the pass has yet to visit it.
   */
  lemma {:induction false} PromoteLeavesLargeGroups(t: seq<Binding>, n: nat)
    requires n <= |t| && DistinctKeys(t)
    ensures forall x :: x in PromoteAll(t, t[..n]) && x.slot.Group? ==>
      x in t && (|x.slot.names| >= 2 || exists j :: n <= j < |t| && t[j].key == x.key)
  {
    if n == 0 {
      assert t[..0] == [];
      forall x | x in t ensures exists j :: 0 <= j < |t| && t[j].key == x.key {
        var j :| 0 <= j < |t| && t[j] == x;
      }
    } else {
      assert t[..n][..n - 1] == t[..n - 1];
      PromoteLeavesLargeGroups(t, n - 1);
      var cur := PromoteAll(t, t[..n - 1]);
      var b := t[n - 1];
      assert PromoteAll(t, t[..n]) == PromoteStep(cur, b);
      forall x | x in PromoteStep(cur, b) && x.slot.Group?
        ensures x in t && (|x.slot.names| >= 2 || exists j :: n <= j < |t| && t[j].key == x.key)
      {
        PromoteStepKeepsLarge(t, n, cur, x);
      }
    }
  }

  /** One step of the pass: a binding it keeps was kept before, and is large or not yet visited. */
  lemma PromoteStepKeepsLarge(t: seq<Binding>, n: nat, cur: seq<Binding>, x: Binding)
    requires 1 <= n <= |t| && DistinctKeys(t)
    requires x in PromoteStep(cur, t[n - 1]) && x.slot.Group?
    requires forall y :: y in cur && y.slot.Group? ==>
      y in t && (|y.slot.names| >= 2 || exists j :: n - 1 <= j < |t| && t[j].key == y.key)
    ensures x in t && (|x.slot.names| >= 2 || exists j :: n <= j < |t| && t[j].key == x.key)
  {
    var b := t[n - 1];
    if b.slot.Group? && |b.slot.names| <= 1 {
      var k := b.key + "\\" + FirstName(b.slot.names);
      UnsetMember(Set(cur, k, Single), b.key, x);
      SetMember(cur, k, Single, x);
      assert x in cur && x.key != b.key;
      if |x.slot.names| < 2 {
        var j :| n - 1 <= j < |t| && t[j].key == x.key;
        assert j != n - 1;
      }
    } else {
      assert x in cur;
      if |x.slot.names| < 2 {
        var j :| n - 1 <= j < |t| && t[j].key == x.key;
        var i :| 0 <= i < |t| && t[i] == x;
        assert i == j;
        assert j != n - 1;
      }
    }
  }

  /** After the pass, every namespace left has at least two names. */
  lemma PromoteSinglesLeavesLargeGroups(t: seq<Binding>)
    requires DistinctKeys(t)
    ensures forall b :: b in PromoteSinglesSpec(t) && b.slot.Group? ==> b in t && |b.slot.names| >= 2
  {
    PromoteLeavesLargeGroups(t, |t|);
    assert t[..|t|] == t;
  }

  /** The single-name loop, over the snapshot. */
  method PromoteSingles(t0: seq<Binding>) returns (t: seq<Binding>)
    ensures t == PromoteSinglesSpec(t0)
  {
    t := t0;
    var i := 0;
    while i < |t0|
      invariant 0 <= i <= |t0|
      invariant t == PromoteAll(t0, t0[..i])
    {
      var b := t0[i];
      if b.slot.Group? && |b.slot.names| <= 1 {
        var name := if b.slot.names == [] then "" else b.slot.names[0];
        t := Set(t, b.key + "\\" + name, Single);
        t := Unset(t, b.key);
      }
      assert t0[..i + 1][..i] == t0[..i];
      i := i + 1;
    }
    assert t0[..i] == t0;
  }

  // ---------------------------------------------------------------------------
  // `ksort`

  predicate SortedByKey(t: seq<Binding>) {
    forall i, j :: 0 <= i < j < |t| ==> AtMost(t[i].key, t[j].key)
  }

  function InsertByKey(b: Binding, t: seq<Binding>): (r: seq<Binding>)
    requires SortedByKey(t)
    ensures SortedByKey(r)
    ensures multiset(r) == multiset(t) + multiset{b}
  {
    if t == [] then [b]
    else if AtMost(b.key, t[0].key) then
      InsertInFront(b, t);
      [b] + t
    else
      var rest := InsertByKey(b, t[1..]);
      InsertBehind(b, t, rest);
      [t[0]] + rest
  }

  /** A binding whose key is at most the first key goes in front. */
  lemma InsertInFront(b: Binding, t: seq<Binding>)
    requires SortedByKey(t) && t != [] && AtMost(b.key, t[0].key)
    ensures SortedByKey([b] + t)
  {
    var r := [b] + t;
    forall i, j | 0 <= i < j < |r| ensures AtMost(r[i].key, r[j].key) {
      assert r[j] == t[j - 1];
      if i > 0 {
        assert r[i] == t[i - 1];
      } else if j > 1 {
        AtMostTransitive(b.key, t[0].key, t[j - 1].key);
      }
    }
  }

  /** A binding whose key is above the first key goes into the rest, behind the first binding. */
  lemma InsertBehind(b: Binding, t: seq<Binding>, rest: seq<Binding>)
    requires SortedByKey(t) && t != [] && !AtMost(b.key, t[0].key)
    requires SortedByKey(rest) && multiset(rest) == multiset(t[1..]) + multiset{b}
    ensures SortedByKey([t[0]] + rest)
    ensures multiset([t[0]] + rest) == multiset(t) + multiset{b}
  {
    AtMostTotal(b.key, t[0].key);
    assert t == [t[0]] + t[1..];
    forall j | 0 <= j < |rest| ensures AtMost(t[0].key, rest[j].key) {
      assert rest[j] in multiset(rest);
      if rest[j] != b {
        assert rest[j] in multiset(t[1..]);
        var k :| 0 <= k < |t[1..]| && t[1..][k] == rest[j];
        assert t[k + 1] == rest[j];
      }
    }
    var r := [t[0]] + rest;
    forall i, j | 0 <= i < j < |r| ensures AtMost(r[i].key, r[j].key) {
      assert r[j] == rest[j - 1];
      if i > 0 {
        assert r[i] == rest[i - 1];
      }
    }
  }

  /** PHP `ksort` on keys that are not numeric strings: the bindings in increasing byte order of their keys. */
  function SortByKey(t: seq<Binding>): (r: seq<Binding>)
    ensures SortedByKey(r)
    ensures multiset(r) == multiset(t)
  {
    if t == [] then []
    else
      assert t == [t[0]] + t[1..];
      InsertByKey(t[0], SortByKey(t[1..]))
  }

  // ---------------------------------------------------------------------------
  // Merging runs of stand-alone names

  /** A rendered statement: stand-alone names written as one list, or a namespace with its names in braces. */
  datatype Item = Flat(names: seq<String>) | Braced(namespace: String, names: seq<String>)

  /** The state of the merging loop: the items so far and the pending stand-alone names. */
  datatype Merging = Merging(items: seq<Item>, pending: seq<String>)

  /**
   * One turn of the merging loop: a stand-alone name joins the pending ones;
   * the pending names are flushed before a namespace and after the last
   * binding; a namespace becomes a braced item.
   */
  function MergeStep(m: Merging, b: Binding, last: bool): Merging {
    var pending := if b.slot.Single? then m.pending + [b.key] else m.pending;
    var flush := (b.slot.Group? || last) && |pending| > 0;
    var items := if flush then m.items + [Flat(pending)] else m.items;
    var pending' := if flush then [] else pending;
    if b.slot.Group? then Merging(items + [Braced(b.key, b.slot.names)], pending') else Merging(items, pending')
  }

  /** The state after the first `n` bindings. */
  function MergeState(t: seq<Binding>, n: nat): Merging
    requires n <= |t|
  {
    if n == 0 then Merging([], []) else MergeStep(MergeState(t, n - 1), t[n - 1], n == |t|)
  }

  function Merged(t: seq<Binding>): seq<Item> {
    MergeState(t, |t|).items
  }

  /** The bindings an item stands for. */
  function Unmerge(items: seq<Item>): seq<Binding> {
    if items == [] then []
    else Unmerge(items[..|items| - 1]) + ItemBindings(items[|items| - 1])
  }

  function ItemBindings(item: Item): (r: seq<Binding>) {
    match item
    case Flat(names) => SinglesOf(names)
    case Braced(ns, names) => [Binding(ns, Group(names))]
  }

  function SinglesOf(names: seq<String>): (r: seq<Binding>)
    ensures |r| == |names| && forall i :: 0 <= i < |names| ==> r[i] == Binding(names[i], Single)
  {
    seq(|names|, i requires 0 <= i < |names| => Binding(names[i], Single))
  }

  /** No flat list is empty, and every flat list but a final one is followed by a namespace. */
  predicate WellMerged(items: seq<Item>) {
    (forall i :: 0 <= i < |items| && items[i].Flat? ==> items[i].names != []) &&
    (forall i :: 0 <= i < |items| - 1 && items[i].Flat? ==> items[i + 1].Braced?)
  }

  /** No item yet, or the last one is a namespace. */
  predicate EndsBraced(items: seq<Item>) {
    items == [] || items[|items| - 1].Braced?
  }

  lemma UnmergeSnoc(items: seq<Item>, item: Item)
    ensures Unmerge(items + [item]) == Unmerge(items) + ItemBindings(item)
  {
    assert (items + [item])[..|items|] == items;
  }

  lemma WellMergedSnoc(items: seq<Item>, item: Item)
    requires WellMerged(items)
    requires item.Flat? ==> item.names != [] && EndsBraced(items)
    ensures WellMerged(items + [item])
  {
    var r := items + [item];
    forall i | 0 <= i < |r| - 1 && r[i].Flat? ensures r[i + 1].Braced? {
      assert r[i] == items[i];
      if i + 1 < |items| {
        assert r[i + 1] == items[i + 1];
      }
    }
  }

  lemma SinglesSnoc(names: seq<String>, k: String)
    ensures SinglesOf(names + [k]) == SinglesOf(names) + [Binding(k, Single)]
  {
  }

  /** One turn keeps the bindings read so far, in order. */
  lemma MergeStepUnmerge(m: Merging, b: Binding, last: bool)
    ensures var m' := MergeStep(m, b, last);
      Unmerge(m'.items) + SinglesOf(m'.pending) == Unmerge(m.items) + SinglesOf(m.pending) + [b]
  {
    var m' := MergeStep(m, b, last);
    var u := Unmerge(m.items);
    assert SinglesOf([]) == [];
    if b.slot.Single? {
      var pending := m.pending + [b.key];
      SinglesSnoc(m.pending, b.key);
      assert b == Binding(b.key, Single);
      assert SinglesOf(pending) == SinglesOf(m.pending) + [b];
      if last {
        assert m' == Merging(m.items + [Flat(pending)], []);
        UnmergeSnoc(m.items, Flat(pending));
        assert Unmerge(m'.items) == u + SinglesOf(pending);
      } else {
        assert m' == Merging(m.items, pending);
      }
    } else {
      var braced := Braced(b.key, b.slot.names);
      assert b == Binding(b.key, Group(b.slot.names));
      assert ItemBindings(braced) == [b];
      if |m.pending| > 0 {
        var items := m.items + [Flat(m.pending)];
        assert m' == Merging(items + [braced], []);
        UnmergeSnoc(m.items, Flat(m.pending));
        UnmergeSnoc(items, braced);
        assert Unmerge(m'.items) == u + SinglesOf(m.pending) + [b];
      } else {
        assert m' == Merging(m.items + [braced], []);
        UnmergeSnoc(m.items, braced);
        assert Unmerge(m'.items) == u + [b];
      }
    }
  }

  /** One turn keeps the items well formed; after the last binding nothing is pending. */
  lemma MergeStepWell(m: Merging, b: Binding, last: bool)
    requires WellMerged(m.items) && EndsBraced(m.items)
    ensures var m' := MergeStep(m, b, last);
      WellMerged(m'.items) && (EndsBraced(m'.items) || last) && (last ==> m'.pending == [])
  {
    var pending := if b.slot.Single? then m.pending + [b.key] else m.pending;
    var flush := (b.slot.Group? || last) && |pending| > 0;
    var items := if flush then m.items + [Flat(pending)] else m.items;
    if flush {
      WellMergedSnoc(m.items, Flat(pending));
    }
    if b.slot.Group? {
      WellMergedSnoc(items, Braced(b.key, b.slot.names));
    }
  }

  lemma {:induction false} MergeStateInvariant(t: seq<Binding>, n: nat)
    requires n <= |t|
    ensures Unmerge(MergeState(t, n).items) + SinglesOf(MergeState(t, n).pending) == t[..n]
    ensures WellMerged(MergeState(t, n).items)
    ensures EndsBraced(MergeState(t, n).items) || n == |t|
    ensures n == |t| ==> MergeState(t, n).pending == []
  {
    if n == 0 {
      assert SinglesOf([]) == [];
    } else {
      MergeStateInvariant(t, n - 1);
      assert t[..n] == t[..n - 1] + [t[n - 1]];
      MergeStepUnmerge(MergeState(t, n - 1), t[n - 1], n == |t|);
      MergeStepWell(MergeState(t, n - 1), t[n - 1], n == |t|);
    }
  }

  /**
   * Merging keeps every binding in order: reading the items back gives the
   * sorted table, and the stand-alone names form non-empty lists, each
   * followed by a namespace unless it is the last item.
   */
  lemma MergedRoundTrip(t: seq<Binding>)
    ensures Unmerge(Merged(t)) == t
    ensures WellMerged(Merged(t))
  {
    MergeStateInvariant(t, |t|);
    assert t[..|t|] == t;
    assert SinglesOf([]) == [];
  }

  /** The merging loop, as the source's iterator walk. */
  method MergeSingles(t: seq<Binding>) returns (items: seq<Item>)
    ensures items == Merged(t)
  {
    items := [];
    var singles: seq<String> := [];
    var n := 0;
    while n < |t|
      invariant 0 <= n <= |t|
      invariant Merging(items, singles) == MergeState(t, n)
    {
      var b := t[n];
      n := n + 1;
      var hasClasses := b.slot.Group?;
      if !hasClasses {
        singles := singles + [b.key];
      }
      if (hasClasses || n == |t|) && |singles| > 0 {
        items := items + [Flat(singles)];
        singles := [];
      }
      if hasClasses {
        items := items + [Braced(b.key, b.slot.names)];
      }
    }
  }

  // ---------------------------------------------------------------------------
  // The comma-separated list of stand-alone names

  /** Each name followed by `, ` except the last. */
  function FlatData(names: seq<String>): (r: seq<String>)
    ensures |r| == |names|
    ensures forall i :: 0 <= i < |names| ==> r[i] == names[i] + (if i < |names| - 1 then ", " else "")
  {
    seq(|names|, i requires 0 <= i < |names| => names[i] + (if i < |names| - 1 then ", " else ""))
  }

  /** The printed length of a row. */
  function RowLength(row: seq<String>): nat {
    |Concat(row)|
  }

  /**
   * The rows the list is broken into: each piece goes on the current row if
   * it fits within `allowed`, else it starts a new row. The first row starts
   * empty, so a first piece that does not fit leaves it empty.
   */
  function Rows(ds: seq<String>, allowed: int): (r: seq<seq<String>>)
    ensures |r| >= 1
  {
    if ds == [] then [[]]
    else
      var rows := Rows(ds[..|ds| - 1], allowed);
      var d := ds[|ds| - 1];
      var last := rows[|rows| - 1];
      if RowLength(last) + |d| <= allowed then rows[..|rows| - 1] + [last + [d]] else rows + [[d]]
  }

  /** The text of each row. */
  function RowTexts(rows: seq<seq<String>>): (r: seq<String>)
    ensures |r| == |rows|
  {
    if rows == [] then [] else RowTexts(rows[..|rows| - 1]) + [Concat(rows[|rows| - 1])]
  }

  /** The text of the rows, joined by a line break and the indentation. */
  function RowsText(rows: seq<seq<String>>, indent: nat): String {
    Join(RowTexts(rows), "\n" + Repeat(' ', indent))
  }

  /** The flat statement: `use `, the kind, the rows, and `;`. */
  function FlatList(kind: Kind, names: seq<String>, max: int): String {
    var head := "use " + KindPrefix(kind);
    head + RowsText(Rows(FlatData(names), max - |head|), |head|) + ";"
  }

  lemma {:induction false} JoinExtendLast(xs: seq<String>, a: String, d: String, sep: String)
    ensures Join(xs + [a + d], sep) == Join(xs + [a], sep) + d
  {
    if xs != [] {
      JoinExtendLast(xs[1..], a, d, sep);
      assert (xs + [a + d])[1..] == xs[1..] + [a + d];
      assert (xs + [a])[1..] == xs[1..] + [a];
    }
  }

  lemma RowTextsSnoc(rows: seq<seq<String>>, row: seq<String>)
    ensures RowTexts(rows + [row]) == RowTexts(rows) + [Concat(row)]
  {
    assert (rows + [row])[..|rows|] == rows;
  }

  /** A piece that fits goes at the end of the text. */
  lemma RowsTextExtend(rows: seq<seq<String>>, d: String, indent: nat)
    requires |rows| >= 1
    ensures RowsText(rows[..|rows| - 1] + [rows[|rows| - 1] + [d]], indent) == RowsText(rows, indent) + d
  {
    var init := rows[..|rows| - 1];
    var last := rows[|rows| - 1];
    assert rows == init + [last];
    RowTextsSnoc(init, last);
    RowTextsSnoc(init, last + [d]);
    ConcatSnoc(last, d);
    JoinExtendLast(RowTexts(init), Concat(last), d, "\n" + Repeat(' ', indent));
  }

  /** A piece that does not fit goes after a line break and the indentation. */
  lemma RowsTextBreak(rows: seq<seq<String>>, d: String, indent: nat)
    requires |rows| >= 1
    ensures RowsText(rows + [[d]], indent) == RowsText(rows, indent) + "\n" + Repeat(' ', indent) + d
  {
    RowTextsSnoc(rows, [d]);
    ConcatOne(d);
    JoinSnoc(RowTexts(rows), d, "\n" + Repeat(' ', indent));
  }

  lemma ConcatOne(d: String)
    ensures Concat([d]) == d
  {
    assert [d][..0] == [];
  }

  lemma Assoc<T>(a: seq<T>, b: seq<T>, c: seq<T>)
    ensures (a + b) + c == a + (b + c)
  {
  }

  /** The length of the last row of the layout of `ds`. */
  function LastLength(ds: seq<String>, allowed: int): nat {
    var rows := Rows(ds, allowed);
    RowLength(rows[|rows| - 1])
  }

  /** The layout of `ds` as text. */
  function LayoutText(ds: seq<String>, allowed: int, indent: nat): String {
    RowsText(Rows(ds, allowed), indent)
  }

  /** A piece that fits goes on the last row. */
  lemma RowsStepFits(ds: seq<String>, i: nat, allowed: int, indent: nat)
    requires |ds| == i + 1 && LastLength(ds[..i], allowed) + |ds[i]| <= allowed
    ensures LayoutText(ds, allowed, indent) == LayoutText(ds[..i], allowed, indent) + ds[i]
    ensures LastLength(ds, allowed) == LastLength(ds[..i], allowed) + |ds[i]|
  {
    var rows := Rows(ds[..i], allowed);
    RowsTextExtend(rows, ds[i], indent);
    ConcatSnoc(rows[|rows| - 1], ds[i]);
  }

  /** A piece that does not fit starts a new row after a line break. */
  lemma RowsStepBreaks(ds: seq<String>, i: nat, allowed: int, indent: nat)
    requires |ds| == i + 1 && LastLength(ds[..i], allowed) + |ds[i]| > allowed
    ensures LayoutText(ds, allowed, indent) ==
      LayoutText(ds[..i], allowed, indent) + "\n" + Repeat(' ', indent) + ds[i]
    ensures LastLength(ds, allowed) == |ds[i]|
  {
    RowsTextBreak(Rows(ds[..i], allowed), ds[i], indent);
    ConcatOne(ds[i]);
  }

  /**
   * The loop's own view of the layout: the text so far and the length of
   * its last row, one piece at a time.
   */
  function Layout(ds: seq<String>, allowed: int, indent: nat): (String, nat) {
    if ds == [] then ("", 0)
    else
      var prev := Layout(ds[..|ds| - 1], allowed, indent);
      var d := ds[|ds| - 1];
      var fits := prev.1 + |d| <= allowed;
      var sep := if fits then "" else "\n" + Repeat(' ', indent);
      (prev.0 + (sep + d), (if fits then prev.1 else 0) + |d|)
  }

  lemma LayoutSnoc(ds: seq<String>, i: nat, allowed: int, indent: nat, text: String, length: nat, fits: bool, sep: String)
    requires i < |ds| && Layout(ds[..i], allowed, indent) == (text, length)
    requires fits == (length + |ds[i]| <= allowed)
    requires sep == if fits then "" else "\n" + Repeat(' ', indent)
    ensures Layout(ds[..i + 1], allowed, indent) == (text + (sep + ds[i]), (if fits then length else 0) + |ds[i]|)
  {
    assert ds[..i + 1][..i] == ds[..i];
  }

  /** Piece by piece, the text and the last row's length are those of the rows. */
  lemma {:induction false} LayoutAgrees(ds: seq<String>, allowed: int, indent: nat)
    ensures Layout(ds, allowed, indent).0 == LayoutText(ds, allowed, indent)
    ensures Layout(ds, allowed, indent).1 == LastLength(ds, allowed)
    decreases |ds|
  {
    if ds == [] {
      LayoutEmpty(allowed, indent);
    } else {
      var i := |ds| - 1;
      LayoutAgrees(ds[..i], allowed, indent);
      LayoutAgreesStep(ds, i, allowed, indent);
    }
  }

  lemma LayoutEmpty(allowed: int, indent: nat)
    ensures LayoutText([], allowed, indent) == [] && LastLength([], allowed) == 0
  {
    var empty: seq<String> := [];
    assert Concat(empty) == [];
    assert RowTexts([[]]) == [[]];
  }

  lemma LayoutAgreesStep(ds: seq<String>, i: nat, allowed: int, indent: nat)
    requires |ds| == i + 1
    requires Layout(ds[..i], allowed, indent).0 == LayoutText(ds[..i], allowed, indent)
    requires Layout(ds[..i], allowed, indent).1 == LastLength(ds[..i], allowed)
    ensures Layout(ds, allowed, indent).0 == LayoutText(ds, allowed, indent)
    ensures Layout(ds, allowed, indent).1 == LastLength(ds, allowed)
  {
    var text := LayoutText(ds[..i], allowed, indent);
    if LastLength(ds[..i], allowed) + |ds[i]| <= allowed {
      RowsStepFits(ds, i, allowed, indent);
      assert "" + ds[i] == ds[i];
    } else {
      RowsStepBreaks(ds, i, allowed, indent);
      Assoc(text, "\n" + Repeat(' ', indent), ds[i]);
      Assoc(text, "\n", Repeat(' ', indent));
    }
  }

  /** The loop that writes the flat list, breaking the line before a piece that does not fit. */
  method WriteFlatList(kind: Kind, names: seq<String>, max: int) returns (line: String)
    ensures line == FlatList(kind, names, max)
  {
    var head := "use " + KindPrefix(kind);
    line := head;
    var offset := |line|;
    var allowed := max - offset;
    var length := 0;
    ghost var ds := FlatData(names);
    for i := 0 to |names|
      invariant line == head + Layout(ds[..i], allowed, offset).0
      invariant length == Layout(ds[..i], allowed, offset).1
    {
      var data := names[i];
      if i + 1 < |names| {
        data := data + ", ";
      }
      assert data == ds[i];
      ghost var text := Layout(ds[..i], allowed, offset).0;
      var fits := length + |data| <= allowed;
      var sep := if fits then "" else "\n" + Repeat(' ', offset);
      LayoutSnoc(ds, i, allowed, offset, text, length, fits, sep);
      Assoc(head, text, sep + data);
      line := line + (sep + data);
      length := (if fits then length else 0) + |data|;
    }
    assert ds[..|names|] == ds;
    LayoutAgrees(ds, allowed, offset);
    line := line + ";";
  }

  /** The rows hold every piece, in order. */
  lemma {:induction false} RowsKeepPieces(ds: seq<String>, allowed: int)
    ensures Concat(Rows(ds, allowed)) == ds
  {
    if ds != [] {
      var init := ds[..|ds| - 1];
      var d := ds[|ds| - 1];
      var rows := Rows(init, allowed);
      RowsKeepPieces(init, allowed);
      var last := rows[|rows| - 1];
      assert rows == rows[..|rows| - 1] + [last];
      ConcatSnoc(rows[..|rows| - 1], last);
      ConcatSnoc(rows[..|rows| - 1], last + [d]);
      ConcatSnoc(rows, [d]);
      assert ds == init + [d];
    }
  }

  /** Every row after the first holds a piece, and it starts there only because that piece did not fit on the row before. */
  predicate BreaksOnlyWhenFull(rows: seq<seq<String>>, allowed: int) {
    forall i :: 1 <= i < |rows| ==> rows[i] != [] && RowLength(rows[i - 1]) + |rows[i][0]| > allowed
  }

  lemma {:induction false} RowsBreakOnlyWhenFull(ds: seq<String>, allowed: int)
    ensures BreaksOnlyWhenFull(Rows(ds, allowed), allowed)
  {
    if ds != [] {
      var init := ds[..|ds| - 1];
      var d := ds[|ds| - 1];
      var rows := Rows(init, allowed);
      RowsBreakOnlyWhenFull(init, allowed);
      var last := rows[|rows| - 1];
      var r := Rows(ds, allowed);
      if RowLength(last) + |d| <= allowed {
        assert r == rows[..|rows| - 1] + [last + [d]];
        forall i | 1 <= i < |r| ensures r[i] != [] && RowLength(r[i - 1]) + |r[i][0]| > allowed {
          assert rows[i] != [] && RowLength(rows[i - 1]) + |rows[i][0]| > allowed;
          assert r[i - 1] == rows[i - 1];
          if i < |r| - 1 {
            assert r[i] == rows[i];
          } else {
            assert r[i] == last + [d];
            assert r[i][0] == rows[i][0];
          }
        }
      } else {
        assert r == rows + [[d]];
        ConcatOne(d);
        forall i | 1 <= i < |r| ensures r[i] != [] && RowLength(r[i - 1]) + |r[i][0]| > allowed {
          if i < |r| - 1 {
            assert rows[i] != [] && RowLength(rows[i - 1]) + |rows[i][0]| > allowed;
            assert r[i] == rows[i] && r[i - 1] == rows[i - 1];
          } else {
            assert r[i] == [d] && r[i - 1] == last;
          }
        }
      }
    }
  }

  /** A row is longer than the allowed length only when it holds a single piece. */
  predicate RowsWithin(rows: seq<seq<String>>, allowed: int) {
    forall i :: 0 <= i < |rows| ==> RowLength(rows[i]) <= allowed || |rows[i]| <= 1
  }

  lemma {:induction false} RowsFit(ds: seq<String>, allowed: int)
    ensures RowsWithin(Rows(ds, allowed), allowed)
  {
    if ds != [] {
      var init := ds[..|ds| - 1];
      var d := ds[|ds| - 1];
      var rows := Rows(init, allowed);
      RowsFit(init, allowed);
      var last := rows[|rows| - 1];
      var r := Rows(ds, allowed);
      if RowLength(last) + |d| <= allowed {
        ConcatSnoc(last, d);
        assert r == rows[..|rows| - 1] + [last + [d]];
        forall i | 0 <= i < |r| ensures RowLength(r[i]) <= allowed || |r[i]| <= 1 {
          if i < |r| - 1 {
            assert r[i] == rows[i];
          } else {
            assert r[i] == last + [d];
          }
        }
      } else {
        assert r == rows + [[d]];
        forall i | 0 <= i < |r| ensures RowLength(r[i]) <= allowed || |r[i]| <= 1 {
          if i < |r| - 1 {
            assert r[i] == rows[i];
          }
        }
      }
    }
  }

  /** A first name that does not fit leaves `use ` (and the kind) alone on the first line. */
  lemma FlatListBreaksBeforeFirst(kind: Kind, names: seq<String>, max: int)
    requires names != []
    requires |FlatData(names)[0]| > max - |"use " + KindPrefix(kind)|
    ensures Rows(FlatData(names), max - |"use " + KindPrefix(kind)|)[0] == []
  {
    var ds := FlatData(names);
    var allowed := max - |"use " + KindPrefix(kind)|;
    RowsFirstHoldsFirst(ds, allowed);
    ConcatOne(ds[0]);
  }

  /** The first row is empty or starts with the first piece, which then fits. */
  lemma {:induction false} RowsFirstHoldsFirst(ds: seq<String>, allowed: int)
    requires ds != []
    ensures var rows := Rows(ds, allowed);
      rows[0] == [] || (rows[0][0] == ds[0] && RowLength([ds[0]]) <= allowed)
  {
    var init := ds[..|ds| - 1];
    ConcatOne(ds[0]);
    if init == [] {
      assert Rows(init, allowed) == [[]];
      var empty: seq<String> := [];
      assert Concat(empty) == [];
    } else {
      RowsFirstHoldsFirst(init, allowed);
      assert init[0] == ds[0];
      var rows := Rows(init, allowed);
      if |rows| == 1 {
        assert Rows(ds, allowed)[0] == rows[0] || Rows(ds, allowed)[0] == rows[0] + [ds[|ds| - 1]];
      } else {
        assert Rows(ds, allowed)[0] == rows[0];
      }
    }
  }

  lemma {:induction false} ConcatCons(x: String, xs: seq<String>)
    ensures Concat([x] + xs) == x + Concat(xs)
  {
    if xs != [] {
      var init := xs[..|xs| - 1];
      ConcatCons(x, init);
      assert [x] + xs == ([x] + init) + [xs[|xs| - 1]];
      ConcatSnoc([x] + init, xs[|xs| - 1]);
      ConcatSnoc(init, xs[|xs| - 1]);
      assert xs == init + [xs[|xs| - 1]];
    } else {
      ConcatOne(x);
    }
  }

  /** Without its line breaks, the flat list is the names separated by `, `. */
  lemma {:induction false} FlatDataJoin(names: seq<String>)
    ensures Concat(FlatData(names)) == Join(names, ", ")
  {
    var ds := FlatData(names);
    if |names| == 1 {
      assert names[0] + "" == names[0];
      assert ds == [names[0]];
      ConcatOne(names[0]);
    } else if |names| > 1 {
      FlatDataJoin(names[1..]);
      assert ds == [names[0] + ", "] + FlatData(names[1..]);
      ConcatCons(names[0] + ", ", FlatData(names[1..]));
    }
  }

  // ---------------------------------------------------------------------------
  // The braced statement of a namespace

  /** The total length of the names. */
  function LengthSum(names: seq<String>): nat {
    if names == [] then 0 else LengthSum(names[..|names| - 1]) + |names[|names| - 1]|
  }

  /**
   * The braced statement: the names sorted, on one line when the computed
   * length fits, else one per line indented by four spaces.
   */
  function BracedList(kind: Kind, ns: String, names: seq<String>, max: int): String {
    var sorted := SortStrings(names);
    var prefix := "use " + KindPrefix(kind) + ns + "\\{";
    var length := |prefix| + LengthSum(sorted) + (|sorted| - 1) * 2 + 2;
    if length > max then prefix + "\n    " + Join(sorted, ",\n    ") + "\n};"
    else prefix + Join(sorted, ", ") + "};"
  }

  lemma {:induction false} JoinLength(parts: seq<String>, sep: String)
    requires parts != []
    ensures |Join(parts, sep)| == LengthSum(parts) + (|parts| - 1) * |sep|
  {
    if |parts| > 1 {
      var init := parts[..|parts| - 1];
      JoinLength(init, sep);
      JoinSnoc(init, parts[|parts| - 1], sep);
      assert init + [parts[|parts| - 1]] == parts;
    }
  }

  /**
   * The computed length is the length of the one-line form, so the braced
   * statement is written on one line exactly when that line fits within
   * the maximum length.
   */
  lemma BracedListFits(kind: Kind, ns: String, names: seq<String>, max: int)
    requires names != []
    ensures var sorted := SortStrings(names);
      var oneLine := "use " + KindPrefix(kind) + ns + "\\{" + Join(sorted, ", ") + "};";
      (|oneLine| <= max ==> BracedList(kind, ns, names, max) == oneLine) &&
      (|oneLine| > max ==>
        BracedList(kind, ns, names, max) ==
        "use " + KindPrefix(kind) + ns + "\\{" + "\n    " + Join(sorted, ",\n    ") + "\n};")
  {
    var sorted := SortStrings(names);
    assert |sorted| == |names| by {
      assert |multiset(sorted)| == |multiset(names)|;
    }
    JoinLength(sorted, ", ");
    var prefix := "use " + KindPrefix(kind) + ns + "\\{";
    assert |prefix + Join(sorted, ", ") + "};"| == |prefix| + LengthSum(sorted) + (|sorted| - 1) * 2 + 2;
  }

  // ---------------------------------------------------------------------------
  // The whole of `renderStatements`

  function Line(kind: Kind, item: Item, max: int): String {
    match item
    case Flat(names) => FlatList(kind, names, max)
    case Braced(ns, names) => BracedList(kind, ns, names, max)
  }

  function Lines(kind: Kind, items: seq<Item>, max: int): (r: seq<String>)
    ensures |r| == |items| && forall i :: 0 <= i < |items| ==> r[i] == Line(kind, items[i], max)
  {
    seq(|items|, i requires 0 <= i < |items| => Line(kind, items[i], max))
  }

  lemma LinesSnoc(kind: Kind, items: seq<Item>, i: nat, max: int)
    requires i < |items|
    ensures Lines(kind, items[..i + 1], max) == Lines(kind, items[..i], max) + [Line(kind, items[i], max)]
  {
  }

  /** The items of one kind, in order: group, promote, sort, merge. */
  function RenderedItems(list: seq<Statement>): seq<Item> {
    Merged(SortByKey(PromoteSinglesSpec(PromoteRootSpec(Grouped(list)))))
  }

  lemma {:induction false} SetSinglesKeepsDistinct(t: seq<Binding>, names: seq<String>)
    requires DistinctKeys(t)
    ensures DistinctKeys(SetSingles(t, names))
  {
    if names != [] {
      SetSinglesKeepsDistinct(t, names[..|names| - 1]);
      SetKeepsDistinct(SetSingles(t, names[..|names| - 1]), names[|names| - 1], Single);
    }
  }

  /** Promoting the root names keeps the table a map. */
  lemma PromoteRootKeepsDistinct(t: seq<Binding>)
    requires DistinctKeys(t)
    ensures DistinctKeys(PromoteRootSpec(t))
  {
    match Find(t, RootNamespace)
    case Some(Group(classes)) =>
      SetSinglesKeepsDistinct(t, classes);
      UnsetKeepsDistinct(SetSingles(t, classes), RootNamespace);
    case _ =>
  }

  lemma {:induction false} UnmergeHolds(items: seq<Item>, i: nat)
    requires i < |items| && items[i].Braced?
    ensures Binding(items[i].namespace, Group(items[i].names)) in Unmerge(items)
  {
    var init := items[..|items| - 1];
    assert items == init + [items[|items| - 1]];
    UnmergeSnoc(init, items[|items| - 1]);
    if i < |items| - 1 {
      assert init[i] == items[i];
      UnmergeHolds(init, i);
    }
  }

  /**
   * What `renderStatements` writes, item by item: the items read back give
   * the table sorted by key; stand-alone names come in non-empty lists; and
   * every braced statement lists at least two names, since namespaces of a
   * single name have been turned into stand-alone names.
   */
  lemma RenderedItemsShape(list: seq<Statement>)
    ensures SortedByKey(Unmerge(RenderedItems(list)))
    ensures WellMerged(RenderedItems(list))
    ensures forall i :: 0 <= i < |RenderedItems(list)| && RenderedItems(list)[i].Braced? ==>
      |RenderedItems(list)[i].names| >= 2
  {
    var promoted := PromoteSinglesSpec(PromoteRootSpec(Grouped(list)));
    var sorted := SortByKey(promoted);
    var items := RenderedItems(list);
    MergedRoundTrip(sorted);
    GroupedDistinct(list);
    PromoteRootKeepsDistinct(Grouped(list));
    PromoteSinglesLeavesLargeGroups(PromoteRootSpec(Grouped(list)));
    forall i | 0 <= i < |items| && items[i].Braced? ensures |items[i].names| >= 2 {
      var b := Binding(items[i].namespace, Group(items[i].names));
      UnmergeHolds(items, i);
      assert b in multiset(sorted);
      assert b in promoted;
    }
  }

  function Render(list: seq<Statement>, kind: Kind, max: int): String {
    Join(Lines(kind, RenderedItems(list), max), "\n")
  }

  /** `renderStatements`, with the maximum line length already resolved. */
  method RenderStatements(list: seq<Statement>, kind: Kind, max: int) returns (r: String)
    ensures r == Render(list, kind, max)
  {
    var t := GroupByNamespace(list);
    t := PromoteRoot(t);
    t := PromoteSingles(t);
    t := SortByKey(t);
    var items := MergeSingles(t);
    var lines: seq<String> := [];
    var i := 0;
    while i < |items|
      invariant 0 <= i <= |items|
      invariant lines == Lines(kind, items[..i], max)
    {
      var line;
      match items[i] {
        case Flat(names) =>
          line := WriteFlatList(kind, names, max);
        case Braced(ns, names) =>
          line := BracedList(kind, ns, names, max);
      }
      assert line == Line(kind, items[i], max);
      LinesSnoc(kind, items, i, max);
      lines := lines + [line];
      i := i + 1;
    }
    assert items[..i] == items;
    r := Join(lines, "\n");
  }

  // ---------------------------------------------------------------------------
  // A non-empty list always renders to at least one statement

  lemma {:induction false} NamesInNotEmpty(list: seq<Statement>, ns: String)
    requires HasNamespace(list, ns)
    ensures NamesIn(list, ns) != []
  {
    var last := list[|list| - 1];
    if last.namespace != ns {
      var i :| 0 <= i < |list| && list[i].namespace == ns;
      assert list[..|list| - 1][i] == list[i];
      NamesInNotEmpty(list[..|list| - 1], ns);
    }
  }

  lemma {:induction false} NamesInRootNamed(list: seq<Statement>)
    requires RootNamed(list)
    ensures RootNamespace !in NamesIn(list, RootNamespace)
  {
    if list != [] {
      var init := list[..|list| - 1];
      assert RootNamed(init) by {
        forall i | 0 <= i < |init| ensures init[i] == list[i] {}
      }
      NamesInRootNamed(init);
    }
  }

  /** Promoting the root names leaves a key: a root name is never the root marker itself. */
  lemma PromoteRootNotEmpty(list: seq<Statement>)
    requires list != [] && RootNamed(list)
    ensures PromoteRootSpec(Grouped(list)) != []
  {
    var t := Grouped(list);
    assert t != [];
    match Find(t, RootNamespace)
    case Some(Group(classes)) =>
      GroupedByNamespace(list, RootNamespace);
      NamesInNotEmpty(list, RootNamespace);
      NamesInRootNamed(list);
      var k := classes[0];
      FindSetSingles(t, classes, k);
      FindUnset(SetSingles(t, classes), RootNamespace, k);
    case _ =>
  }

  /** The single-name pass replaces a key by a longer one, so it never empties the table. */
  lemma {:induction false} PromoteAllNotEmpty(start: seq<Binding>, snapshot: seq<Binding>)
    requires start != []
    ensures PromoteAll(start, snapshot) != []
  {
    if snapshot != [] {
      var cur := PromoteAll(start, snapshot[..|snapshot| - 1]);
      PromoteAllNotEmpty(start, snapshot[..|snapshot| - 1]);
      var b := snapshot[|snapshot| - 1];
      if b.slot.Group? && |b.slot.names| <= 1 {
        var k := b.key + "\\" + FirstName(b.slot.names);
        FindSet(cur, k, Single, k);
        FindUnset(Set(cur, k, Single), b.key, k);
      }
    }
  }

  lemma RenderedItemsNotEmpty(list: seq<Statement>)
    requires list != [] && RootNamed(list)
    ensures RenderedItems(list) != []
  {
    var root := PromoteRootSpec(Grouped(list));
    PromoteRootNotEmpty(list);
    PromoteAllNotEmpty(root, root);
    var sorted := SortByKey(PromoteSinglesSpec(root));
    assert sorted != [] by {
      assert |multiset(sorted)| == |PromoteSinglesSpec(root)|;
    }
    MergedRoundTrip(sorted);
  }

  /** Every written statement ends with `;`. */
  lemma LineEndsWithSemicolon(kind: Kind, item: Item, max: int)
    ensures EndsWith(Line(kind, item, max), ";")
  {
    var l := Line(kind, item, max);
    assert l[|l| - 1..] == ";";
  }

  /** So the statements of a non-empty list render to text ending in `;`. */
  lemma RenderEndsWithSemicolon(list: seq<Statement>, kind: Kind, max: int)
    requires list != [] && RootNamed(list)
    ensures EndsWith(Render(list, kind, max), ";")
  {
    var items := RenderedItems(list);
    RenderedItemsNotEmpty(list);
    var lines := Lines(kind, items, max);
    LineEndsWithSemicolon(kind, items[|items| - 1], max);
    JoinEndsWithLast(lines, "\n");
    EndsWithTransitive(Join(lines, "\n"), lines[|lines| - 1], ";");
  }

  /**
   * A root-level name spelled like the root marker vanishes: it is set
   * under its own key, which is then unset with the root group.
   */
  lemma RootMarkerVanishes(kind: Kind, max: int)
    ensures Render([Statement(RootNamespace, RootNamespace)], kind, max) == ""
  {
    var list := [Statement(RootNamespace, RootNamespace)];
    assert list[..0] == [];
    assert Grouped(list[..0]) == [];
    assert GroupNames([], RootNamespace) == [];
    var t := Grouped(list);
    assert t == AddToGroup([], list[0]);
    assert GroupNames([], RootNamespace) + [RootNamespace] == [RootNamespace];
    assert t == [Binding(RootNamespace, Group([RootNamespace]))];
    assert SetSingles(t, [RootNamespace]) == [Binding(RootNamespace, Single)];
    assert PromoteRootSpec(t) == [];
    assert Merged([]) == [];
  }
}
