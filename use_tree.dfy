/**
 * The prefix tree of the use-statement formatter: each statement is split on
 * `\` and its segments are walked down a tree of name-keyed nodes, creating
 * intermediate namespaces as needed; the last segment is marked as imported
 * and carries the alias.
 */
module UseTree {

  import opened Wrappers
  import opened Strings

  /** A node: whether the name itself is imported, its alias, and the names below it (if it is a namespace). */
  datatype Node = Node(use: bool, alias: Option<String>, items: Items)

  /** The `items` key of a node: absent for a plain name, present for a namespace. */
  datatype Items = Absent | Present(entries: seq<Entry>)
  {
    /** `$node['items'] ?? []`. */
    function OrEmpty(): seq<Entry> {
      if Present? then entries else []
    }
  }

  /** One key of an insertion-ordered, name-keyed level of the tree. */
  datatype Entry = Entry(name: String, node: Node)

  function Names(es: seq<Entry>): (r: seq<String>)
    ensures |r| == |es| && forall i :: 0 <= i < |es| ==> r[i] == es[i].name
  {
    seq(|es|, i requires 0 <= i < |es| => es[i].name)
  }

  predicate Distinct<T(==)>(ks: seq<T>) {
    forall i, j :: 0 <= i < j < |ks| ==> ks[i] != ks[j]
  }

  /** The node stored under `k`. */
  function Get(es: seq<Entry>, k: String): (r: Option<Node>)
    ensures r.None? <==> k !in Names(es)
    ensures r.Some? ==> Entry(k, r.value) in es
  {
    if es == [] then None
    else if es[0].name == k then Some(es[0].node)
    else
      assert Names(es) == [es[0].name] + Names(es[1..]);
      Get(es[1..], k)
  }

  /** `$level[$k] = $n`: replace the node under `k` in place, or append a new key. */
  function Put(es: seq<Entry>, k: String, n: Node): (r: seq<Entry>)
    ensures Names(r) == if k in Names(es) then Names(es) else Names(es) + [k]
  {
    if es == [] then [Entry(k, n)]
    else if es[0].name == k then
      assert es == [es[0]] + es[1..];
      NamesCons(es[0], es[1..]);
      NamesCons(Entry(k, n), es[1..]);
      [Entry(k, n)] + es[1..]
    else
      var rest := Put(es[1..], k, n);
      assert es == [es[0]] + es[1..];
      NamesPutCons(es[0], es[1..], k, rest);
      [es[0]] + rest
  }

  lemma NamesCons(e: Entry, es: seq<Entry>)
    ensures Names([e] + es) == [e.name] + Names(es)
  {
  }

  /** Putting a key other than the first one's leaves the first name in front. */
  lemma NamesPutCons(e: Entry, es: seq<Entry>, k: String, rest: seq<Entry>)
    requires e.name != k
    requires Names(rest) == if k in Names(es) then Names(es) else Names(es) + [k]
    ensures Names([e] + rest) == if k in Names([e] + es) then Names([e] + es) else Names([e] + es) + [k]
  {
    NamesCons(e, es);
    NamesCons(e, rest);
    assert k in Names([e] + es) <==> k in Names(es);
    if k !in Names(es) {
      assert [e.name] + (Names(es) + [k]) == ([e.name] + Names(es)) + [k];
    }
  }

  /** After a `Put`, the key holds the new node and every other key holds what it held before. */
  lemma {:induction false} PutGet(es: seq<Entry>, k: String, n: Node, k': String)
    ensures Get(Put(es, k, n), k') == if k' == k then Some(n) else Get(es, k')
  {
    if es != [] && es[0].name != k {
      PutGet(es[1..], k, n, k');
      assert ([es[0]] + Put(es[1..], k, n))[1..] == Put(es[1..], k, n);
    }
  }

  /** `addStatement`'s walk over the segments of one statement (the moving reference becomes recursion). */
  function Insert(es: seq<Entry>, segs: seq<String>, alias: Option<String>): seq<Entry>
    requires |segs| >= 1
    decreases |segs|, 1
  {
    Put(es, segs[0], Updated(Get(es, segs[0]), segs, alias))
  }

  /**
   * The node stored under the first segment: the last segment is marked as
   * imported with the alias (keeping its sub-names); an intermediate one is
   * created as a non-imported namespace if missing, and the rest of the
   * statement is inserted below it.
   */
  function Updated(before: Option<Node>, segs: seq<String>, alias: Option<String>): Node
    requires |segs| >= 1
    decreases |segs|, 0
  {
    if |segs| == 1 then
      Node(true, alias, if before.Some? then before.value.items else Absent)
    else
      var n := before.GetOr(Node(false, None, Absent));
      Node(n.use, n.alias, Present(Insert(n.items.OrEmpty(), segs[1..], alias)))
  }

  /** The node reached by following `path` from the top level. */
  function Lookup(es: seq<Entry>, path: seq<String>): Option<Node>
    requires |path| >= 1
    decreases |path|
  {
    match Get(es, path[0])
    case None => None
    case Some(n) =>
      if |path| == 1 then Some(n)
      else if n.items.Absent? then None
      else Lookup(n.items.entries, path[1..])
  }

  /** The last segment becomes an imported name with the alias; its sub-names, if any, are kept. */
  lemma {:induction false} InsertTarget(es: seq<Entry>, segs: seq<String>, alias: Option<String>)
    requires |segs| >= 1
    ensures var r := Lookup(Insert(es, segs, alias), segs);
      var before := Lookup(es, segs);
      r == Some(Node(true, alias, if before.Some? then before.value.items else Absent))
    decreases |segs|
  {
    PutGet(es, segs[0], Updated(Get(es, segs[0]), segs, alias), segs[0]);
    if |segs| > 1 {
      var n := Get(es, segs[0]).GetOr(Node(false, None, Absent));
      InsertTarget(n.items.OrEmpty(), segs[1..], alias);
      if Get(es, segs[0]).Some? && n.items.Absent? {
        assert Lookup(es, segs) == None;
        assert Lookup([], segs[1..]) == None;
      }
    }
  }

  /**
   * Every proper prefix of the statement is a namespace afterwards; an
   * existing node keeps its `use` flag and alias, and a new one is created
   * as not imported.
   */
  lemma {:induction false} InsertPrefix(es: seq<Entry>, segs: seq<String>, alias: Option<String>, j: nat)
    requires 1 <= j < |segs|
    ensures var r := Lookup(Insert(es, segs, alias), segs[..j]);
      var before := Lookup(es, segs[..j]);
      r.Some? && r.value.items.Present? &&
      (before.Some? ==> r.value.use == before.value.use && r.value.alias == before.value.alias) &&
      (before.None? ==> !r.value.use && r.value.alias == None)
    decreases |segs|
  {
    PutGet(es, segs[0], Updated(Get(es, segs[0]), segs, alias), segs[0]);
    var n := Get(es, segs[0]).GetOr(Node(false, None, Absent));
    if j > 1 {
      assert segs[..j][1..] == segs[1..][..j - 1];
      InsertPrefix(n.items.OrEmpty(), segs[1..], alias, j - 1);
      if Get(es, segs[0]).Some? && n.items.Absent? {
        assert Lookup([], segs[1..][..j - 1]) == None;
      }
    }
  }

  /** With equal first segments, `p` starts `segs` exactly when its rest starts the rest of `segs`. */
  lemma PrefixCons(p: seq<String>, segs: seq<String>)
    requires |p| >= 1 && |segs| >= 1 && p[0] == segs[0]
    ensures |p| == 1 ==> p == segs[..1]
    ensures (|p| <= |segs| && p == segs[..|p|]) <==> (|p| - 1 <= |segs| - 1 && p[1..] == segs[1..][..|p| - 1])
  {
    assert p == [p[0]] + p[1..];
    if |p| <= |segs| {
      assert segs[..|p|] == [segs[0]] + segs[1..][..|p| - 1];
    }
  }

  /** Nodes off the statement's path, including everything below its last segment, are unchanged. */
  lemma {:induction false} InsertElsewhere(es: seq<Entry>, segs: seq<String>, alias: Option<String>, p: seq<String>)
    requires |segs| >= 1 && |p| >= 1
    requires !(|p| <= |segs| && p == segs[..|p|])
    ensures Lookup(Insert(es, segs, alias), p) == Lookup(es, p)
    decreases |segs|
  {
    PutGet(es, segs[0], Updated(Get(es, segs[0]), segs, alias), p[0]);
    if p[0] == segs[0] {
      var n := Get(es, segs[0]).GetOr(Node(false, None, Absent));
      if |segs| > 1 {
        PrefixCons(p, segs);
        InsertElsewhere(n.items.OrEmpty(), segs[1..], alias, p[1..]);
        if n.items.Absent? {
          assert Lookup([], p[1..]) == None;
        }
      }
    }
  }

  // ---------------------------------------------------------------------------
  // Splitting off the alias: `preg_split('@\s+as\s+@', $part, 2)`

  /** The first index at or after `i` that is not whitespace. */
  function SpaceRunEnd(s: String, i: nat): (r: nat)
    requires i <= |s|
    ensures i <= r <= |s| && (r == |s| || !IsSpace(s[r]))
    ensures forall k :: i <= k < r ==> IsSpace(s[k])
    decreases |s| - i
  {
    if i < |s| && IsSpace(s[i]) then SpaceRunEnd(s, i + 1) else i
  }

  /** The pattern matches at `i`: whitespace, `as`, whitespace. */
  predicate AsAt(s: String, i: nat) {
    i < |s| && IsSpace(s[i]) &&
    var j := SpaceRunEnd(s, i);
    j + 2 < |s| && s[j] == 'a' && s[j + 1] == 's' && IsSpace(s[j + 2])
  }

  /** The leftmost match at or after `i`. */
  function FindAs(s: String, i: nat): (r: Option<nat>)
    requires i <= |s|
    ensures r.Some? ==> i <= r.value < |s| && AsAt(s, r.value)
    ensures r.None? <==> forall k :: i <= k < |s| ==> !AsAt(s, k)
    ensures r.Some? ==> forall k :: i <= k < r.value ==> !AsAt(s, k)
    decreases |s| - i
  {
    if i == |s| then None
    else if AsAt(s, i) then Some(i)
    else FindAs(s, i + 1)
  }

  /** The name and the alias of the last segment: the text before the first ` as `, and the text after it. */
  function SplitAlias(s: String): (r: (String, Option<String>))
    ensures FindAs(s, 0).None? ==> r == (s, None)
    ensures FindAs(s, 0).Some? ==> r.1.Some? && |r.0| < |s| && s[..|r.0|] == r.0
  {
    match FindAs(s, 0)
    case None => (s, None)
    case Some(i) =>
      var j := SpaceRunEnd(s, i);
      (s[..i], Some(s[SpaceRunEnd(s, j + 2)..]))
  }

  /** A name without whitespace followed by ` as ` and an alias splits back into the two. */
  lemma SplitAliasRoundTrip(name: String, alias: String)
    requires forall k :: 0 <= k < |name| ==> !IsSpace(name[k])
    requires alias == [] || !IsSpace(alias[0])
    ensures SplitAlias(name + " as " + alias) == (name, Some(alias))
  {
    var s := name + " as " + alias;
    assert s[|name|] == ' ' && s[|name| + 1] == 'a' && s[|name| + 2] == 's' && s[|name| + 3] == ' ';
    assert SpaceRunEnd(s, |name| + 1) == |name| + 1;
    assert AsAt(s, |name|);
    forall k | 0 <= k < |name| ensures !AsAt(s, k) {
      assert s[k] == name[k];
    }
    var f := FindAs(s, 0);
    assert f == Some(|name|);
    assert s[..|name|] == name;
    if alias == [] {
      assert SpaceRunEnd(s, |name| + 4) == |s|;
    } else {
      assert s[|name| + 4] == alias[0];
      assert SpaceRunEnd(s, |name| + 4) == |name| + 4;
    }
    assert s[|name| + 4..] == alias;
  }

  /** `addStatement`: split on `\`, take the alias off the last segment, and insert the path. */
  function AddStatement(es: seq<Entry>, statement: String): seq<Entry> {
    var parts := Split(statement, '\\');
    var (name, alias) := SplitAlias(parts[|parts| - 1]);
    Insert(es, parts[..|parts| - 1] + [name], alias)
  }

  /** The statement's namespace path leads to a node marked imported, with the alias given after ` as `. */
  lemma AddStatementImports(es: seq<Entry>, namespace: seq<String>, name: String, alias: String)
    requires forall i :: 0 <= i < |namespace| ==> '\\' !in namespace[i]
    requires '\\' !in name && '\\' !in alias
    requires forall k :: 0 <= k < |name| ==> !IsSpace(name[k])
    requires alias == [] || !IsSpace(alias[0])
    ensures var r := Lookup(AddStatement(es, Join(namespace + [name + " as " + alias], "\\")), namespace + [name]);
      r.Some? && r.value.use && r.value.alias == Some(alias)
  {
    var parts := namespace + [name + " as " + alias];
    AliasedHasNoBackslash(name, alias);
    assert forall i :: 0 <= i < |parts| ==> '\\' !in parts[i] by {
      forall i | 0 <= i < |parts| ensures '\\' !in parts[i] {
        if i < |namespace| {
          assert parts[i] == namespace[i];
        }
      }
    }
    SplitJoin(parts, '\\');
    SplitAliasRoundTrip(name, alias);
    AddStatementOf(es, Join(parts, "\\"), parts, name, Some(alias));
    assert parts[..|parts| - 1] + [name] == namespace + [name];
    InsertTarget(es, namespace + [name], Some(alias));
  }

  lemma AddStatementOf(es: seq<Entry>, statement: String, parts: seq<String>, name: String, alias: Option<String>)
    requires parts != [] && Split(statement, '\\') == parts
    requires SplitAlias(parts[|parts| - 1]) == (name, alias)
    ensures AddStatement(es, statement) == Insert(es, parts[..|parts| - 1] + [name], alias)
  {
  }

  lemma AliasedHasNoBackslash(name: String, alias: String)
    requires '\\' !in name && '\\' !in alias
    ensures '\\' !in name + " as " + alias
  {
    var last := name + " as " + alias;
    assert forall k :: 0 <= k < |last| ==> last[k] == (if k < |name| then name[k] else if k < |name| + 4 then " as "[k - |name|] else alias[k - |name| - 4]);
  }

  // ---------------------------------------------------------------------------
  // Depth

  /** `getDepth`: 0 for a name without sub-names, else one more than the deepest sub-name. */
  function Depth(n: Node): (r: nat)
    ensures n.items.Absent? <==> r == 0
    ensures n.items.Present? ==> forall i :: 0 <= i < |n.items.entries| ==> Depth(n.items.entries[i].node) < r
    ensures n.items.Present? && n.items.entries != [] ==>
      exists i :: 0 <= i < |n.items.entries| && Depth(n.items.entries[i].node) == r - 1
    ensures n.items.Present? && n.items.entries == [] ==> r == 1
    decreases n
  {
    match n.items
    case Absent => 0
    case Present(es) =>
      var ds := seq(|es|, i requires 0 <= i < |es| => Depth(es[i].node));
      assert forall i :: 0 <= i < |es| ==> ds[i] == Depth(es[i].node);
      1 + MaxOf(ds)
  }

  /** The greatest of the numbers, 0 when there are none. */
  function MaxOf(xs: seq<nat>): (r: nat)
    ensures forall i :: 0 <= i < |xs| ==> xs[i] <= r
    ensures xs == [] ==> r == 0
    ensures xs != [] ==> exists i :: 0 <= i < |xs| && xs[i] == r
  {
    if xs == [] then 0
    else
      var m := MaxOf(xs[..|xs| - 1]);
      if xs[|xs| - 1] <= m then m else xs[|xs| - 1]
  }

  /** One more number for the running maximum. */
  lemma MaxOfStep(xs: seq<nat>, k: nat)
    requires k < |xs|
    ensures MaxOf(xs[..k + 1]) == if xs[k] <= MaxOf(xs[..k]) then MaxOf(xs[..k]) else xs[k]
  {
    var prefix := xs[..k + 1];
    assert prefix[..|prefix| - 1] == xs[..k] && prefix[|prefix| - 1] == xs[k];
  }

  /** The loop of `getDepth`: the running maximum of the sub-names' depths, plus one. */
  method GetDepth(n: Node) returns (d: nat)
    ensures d == Depth(n)
    decreases n
  {
    d := 0;
    if n.items.Present? {
      var es := n.items.entries;
      ghost var ds := seq(|es|, i requires 0 <= i < |es| => Depth(es[i].node));
      var maxDepth := 0;
      for k := 0 to |es|
        invariant maxDepth == MaxOf(ds[..k])
      {
        assert n.items == Present(es);
        var newDepth := GetDepth(es[k].node);
        MaxOfStep(ds, k);
        assert ds[k] == newDepth;
        if newDepth <= maxDepth {
          continue;
        }
        maxDepth := newDepth;
      }
      assert ds[..|es|] == ds;
      d := maxDepth + 1;
    }
  }

  // ---------------------------------------------------------------------------
  // Annotated tree: `assignDepths`

  /**
   * A node after `assignDepths`: its key as `name`, and its depth. The
   * reference to the enclosing node is not stored; `BuildStatement` receives
   * the chain of enclosing nodes instead.
   */
  datatype Config = Config(name: String, use: bool, alias: Option<String>, depth: nat, items: ConfigItems)

  datatype ConfigItems = NoItems | SomeItems(configs: seq<Config>)
  {
    /** `$config['items'] ?? []`. */
    function OrEmpty(): seq<Config> {
      if SomeItems? then configs else []
    }
  }

  /** One entry with its name and depth, and its sub-names annotated in turn. */
  function AnnotateEntry(e: Entry): (r: Config)
    ensures r.name == e.name && r.use == e.node.use && r.alias == e.node.alias
    ensures r.depth == Depth(e.node)
    ensures r.items.SomeItems? <==> e.node.items.Present?
    decreases e
  {
    var items := match e.node.items
      case Absent => NoItems
      case Present(es) => SomeItems(seq(|es|, i requires 0 <= i < |es| => AnnotateEntry(es[i])));
    Config(e.name, e.node.use, e.node.alias, Depth(e.node), items)
  }

  /** `assignDepths` on one level: every entry annotated, in order. */
  function Annotate(es: seq<Entry>): (r: seq<Config>)
    ensures |r| == |es| && forall i :: 0 <= i < |es| ==> r[i] == AnnotateEntry(es[i])
  {
    seq(|es|, i requires 0 <= i < |es| => AnnotateEntry(es[i]))
  }

  /** The annotated sub-names are the annotation of the sub-names. */
  lemma AnnotateItems(e: Entry)
    requires e.node.items.Present?
    ensures AnnotateEntry(e).items == SomeItems(Annotate(e.node.items.entries))
  {
  }

  /**
   * Annotated depths are consistent: a name without sub-names has depth 0,
   * and a namespace is one deeper than its deepest sub-name.
   */
  predicate DepthsConsistent(c: Config)
    decreases c
  {
    (c.items.NoItems? <==> c.depth == 0) &&
    (c.items.SomeItems? ==>
      var cs := c.items.configs;
      (forall i :: 0 <= i < |cs| ==> cs[i].depth < c.depth && DepthsConsistent(cs[i])) &&
      (cs == [] ==> c.depth == 1) &&
      (cs != [] ==> exists i :: 0 <= i < |cs| && cs[i].depth == c.depth - 1))
  }

  lemma {:induction false} AnnotateConsistent(e: Entry)
    ensures DepthsConsistent(AnnotateEntry(e))
    decreases e
  {
    var c := AnnotateEntry(e);
    if e.node.items.Present? {
      var es := e.node.items.entries;
      var cs := c.items.configs;
      forall i | 0 <= i < |cs| ensures cs[i].depth < c.depth && DepthsConsistent(cs[i]) {
        assert cs[i] == AnnotateEntry(es[i]);
        AnnotateConsistent(es[i]);
      }
      if cs != [] {
        var i :| 0 <= i < |es| && Depth(es[i].node) == Depth(e.node) - 1;
        assert cs[i] == AnnotateEntry(es[i]);
      }
    }
  }

  lemma AnnotateAppend(es: seq<Entry>, e: Entry)
    ensures Annotate(es + [e]) == Annotate(es) + [AnnotateEntry(e)]
  {
    assert forall i :: 0 <= i < |es| ==> (es + [e])[i] == es[i];
  }

  lemma AnnotateEntryOf(e: Entry, items: ConfigItems, depth: nat)
    requires depth == Depth(e.node)
    requires e.node.items.Absent? ==> items == NoItems
    requires e.node.items.Present? ==> items == SomeItems(Annotate(e.node.items.entries))
    ensures Config(e.name, e.node.use, e.node.alias, depth, items) == AnnotateEntry(e)
  {
    if e.node.items.Present? {
      AnnotateItems(e);
    }
  }

  lemma AnnotateSnoc(es: seq<Entry>, i: nat, r: seq<Config>, c: Config)
    requires i < |es| && r == Annotate(es[..i]) && c == AnnotateEntry(es[i])
    ensures r + [c] == Annotate(es[..i + 1])
  {
    AnnotateAppend(es[..i], es[i]);
    assert es[..i + 1] == es[..i] + [es[i]];
  }

  /** The loop of `assignDepths`, recursing into the sub-names of each entry. */
  method AssignDepths(es: seq<Entry>) returns (r: seq<Config>)
    ensures r == Annotate(es)
    decreases Present(es)
  {
    r := [];
    for i := 0 to |es|
      invariant r == Annotate(es[..i])
    {
      var e := es[i];
      var items := NoItems;
      if e.node.items.Present? {
        assert e.node.items == Present(e.node.items.entries);
        var sub := AssignDepths(e.node.items.entries);
        items := SomeItems(sub);
      }
      var depth := GetDepth(e.node);
      var config := Config(e.name, e.node.use, e.node.alias, depth, items);
      AnnotateEntryOf(e, items, depth);
      AnnotateSnoc(es, i, r, config);
      r := r + [config];
    }
    assert es[..|es|] == es;
  }

  // ---------------------------------------------------------------------------
  // Grouping decisions: `hasSibling` and `buildStatements`

  /** `count($config['items'])`. */
  function Count(c: Config): nat {
    |c.items.OrEmpty()|
  }

  /** An entry other than `skip` that would be written on its own: a plain name, or a namespace of one plain name. */
  predicate Loose(item: Config, skip: String) {
    item.name != skip && item.depth <= 1 && !(item.depth == 1 && Count(item) >= 2)
  }

  /** `hasSibling`: the scan over the items, stopping at the first loose one. */
  function HasSibling(c: Config, skip: String): (r: bool)
    ensures r <==> exists i :: 0 <= i < |c.items.OrEmpty()| && Loose(c.items.OrEmpty()[i], skip)
  {
    AnyLoose(c.items.OrEmpty(), skip)
  }

  /** The loop of `hasSibling`, left at the first loose item. */
  method ScanSiblings(c: Config, skip: String) returns (hasSibling: bool)
    ensures hasSibling == HasSibling(c, skip)
  {
    hasSibling := false;
    if c.items.SomeItems? {
      var items := c.items.configs;
      for k := 0 to |items|
        invariant !hasSibling && forall j :: 0 <= j < k ==> !Loose(items[j], skip)
      {
        var item := items[k];
        if skip == item.name || item.depth > 1 {
          continue;
        }
        if item.depth == 1 && Count(item) >= 2 {
          continue;
        }
        hasSibling := true;
        break;
      }
    }
  }

  function AnyLoose(cs: seq<Config>, skip: String): (r: bool)
    ensures r <==> exists i :: 0 <= i < |cs| && Loose(cs[i], skip)
  {
    if cs == [] then false
    else if Loose(cs[0], skip) then true
    else
      assert forall i :: 1 <= i < |cs| ==> cs[i] == cs[1..][i - 1];
      AnyLoose(cs[1..], skip)
  }

  /** The key that marks statements without a namespace. */
  const RootNamespace: String := "--ROOT--"

  /** A statement as built: its namespace (or the root marker) and its name relative to it. */
  datatype Statement = Statement(namespace: String, name: String)

  /** The names on the ancestor stack of `buildStatements`; `Names` is the same projection on the entries of a level. */
  function NamesOf(cs: seq<Config>): (r: seq<String>)
    ensures |r| == |cs| && forall i :: 0 <= i < |cs| ==> r[i] == cs[i].name
  {
    seq(|cs|, i requires 0 <= i < |cs| => cs[i].name)
  }

  /**
   * A name moves up into its namespace's namespace when its namespace has
   * depth 2 and no loose entry besides it, or when its namespace holds only
   * it and the namespace has a loose sibling.
   */
  predicate Pops(c: Config, ancestors: seq<Config>) {
    |ancestors| > 0 &&
    var parent := ancestors[|ancestors| - 1];
    (parent.depth == 2 && !HasSibling(parent, c.name)) ||
    (parent.depth == 1 && Count(parent) < 2 && |ancestors| > 1 &&
      HasSibling(ancestors[|ancestors| - 2], parent.name))
  }

  /** The name as written in the statement, with ` as alias` when aliased. */
  function Display(c: Config): String {
    c.name + (if c.alias.Some? then " as " + c.alias.value else "")
  }

  /** The statement built for a name at the end of a branch below `ancestors`. */
  function LeafStatement(c: Config, ancestors: seq<Config>): (r: Statement)
    ensures Pops(c, ancestors) ==>
      r.name == ancestors[|ancestors| - 1].name + "\\" + Display(c) &&
      r.namespace == (if |ancestors| == 1 then RootNamespace else Join(NamesOf(ancestors[..|ancestors| - 1]), "\\"))
    ensures !Pops(c, ancestors) ==>
      r.name == Display(c) &&
      r.namespace == (if ancestors == [] then RootNamespace else Join(NamesOf(ancestors), "\\"))
  {
    var parents := NamesOf(ancestors);
    if Pops(c, ancestors) then
      var ns := parents[..|parents| - 1];
      assert ns == NamesOf(ancestors[..|ancestors| - 1]);
      Statement(if ns == [] then RootNamespace else Join(ns, "\\"), parents[|parents| - 1] + "\\" + Display(c))
    else
      Statement(if parents == [] then RootNamespace else Join(parents, "\\"), Display(c))
  }

  /** `Concat(xss)`: `array_merge` over a list of lists. */
  function Concat<T>(xss: seq<seq<T>>): (r: seq<T>)
  {
    if xss == [] then [] else Concat(xss[..|xss| - 1]) + xss[|xss| - 1]
  }

  /** The statements built for one entry: its branch's ends, in order, or itself when it has none. */
  function BuildConfig(c: Config, ancestors: seq<Config>): seq<Statement>
    decreases c
  {
    if c.depth > 0 then
      var cs := c.items.OrEmpty();
      Concat(seq(|cs|, i requires 0 <= i < |cs| => BuildConfig(cs[i], ancestors + [c])))
    else [LeafStatement(c, ancestors)]
  }

  /** `buildStatements($list, $parents)`, with the enclosing nodes in place of their names. */
  function BuildList(cs: seq<Config>, ancestors: seq<Config>): seq<Statement> {
    Concat(seq(|cs|, i requires 0 <= i < |cs| => BuildConfig(cs[i], ancestors)))
  }

  lemma ConcatSnoc<T>(xss: seq<seq<T>>, xs: seq<T>)
    ensures Concat(xss + [xs]) == Concat(xss) + xs
  {
    assert (xss + [xs])[..|xss|] == xss;
  }

  lemma BuildListSnoc(cs: seq<Config>, c: Config, ancestors: seq<Config>)
    ensures BuildList(cs + [c], ancestors) == BuildList(cs, ancestors) + BuildConfig(c, ancestors)
  {
    var f := i requires 0 <= i < |cs| + 1 => BuildConfig((cs + [c])[i], ancestors);
    var all := seq(|cs| + 1, f);
    assert all == seq(|cs|, i requires 0 <= i < |cs| => BuildConfig(cs[i], ancestors)) + [BuildConfig(c, ancestors)];
    ConcatSnoc(seq(|cs|, i requires 0 <= i < |cs| => BuildConfig(cs[i], ancestors)), BuildConfig(c, ancestors));
  }

  /** The loop of `buildStatements`: recursion into namespaces, and for a branch end the pop rule and the namespace. */
  method BuildStatements(list: seq<Config>, ancestors: seq<Config>) returns (r: seq<Statement>)
    ensures r == BuildList(list, ancestors)
    decreases SomeItems(list)
  {
    r := [];
    var i := 0;
    while i < |list|
      invariant 0 <= i <= |list|
      invariant r == BuildList(list[..i], ancestors)
    {
      var config := list[i];
      BuildListSnoc(list[..i], config, ancestors);
      assert list[..i + 1] == list[..i] + [config];
      if config.depth > 0 {
        var sub := [];
        if config.items.SomeItems? {
          assert config.items == SomeItems(config.items.configs);
          sub := BuildStatements(config.items.configs, ancestors + [config]);
        }
        assert BuildConfig(config, ancestors) == BuildList(config.items.OrEmpty(), ancestors + [config]);
        r := r + sub;
      } else {
        var st := BranchEnd(config, ancestors);
        r := r + [st];
      }
      i := i + 1;
    }
    assert list[..i] == list;
  }

  /** The branch-end case of `buildStatements`: the pop rule, then the namespace of the statement. */
  method BranchEnd(config: Config, ancestors: seq<Config>) returns (st: Statement)
    ensures st == LeafStatement(config, ancestors)
  {
    var pop := 0;
    if |ancestors| > 0 {
      var parent := ancestors[|ancestors| - 1];
      if parent.depth == 2 {
        var hasSibling := ScanSiblings(parent, config.name);
        if !hasSibling {
          pop := 1;
        }
      } else if parent.depth == 1 && Count(parent) < 2 && |ancestors| > 1 {
        var hasSibling := ScanSiblings(ancestors[|ancestors| - 2], parent.name);
        if hasSibling {
          pop := 1;
        }
      }
    }
    ghost var popped := pop == 1;
    assert popped <==> Pops(config, ancestors);
    var parents := NamesOf(ancestors);
    var name := config.name + (if config.alias.Some? then " as " + config.alias.value else "");
    while pop > 0
      invariant 0 <= pop <= 1
      invariant pop == 1 ==> popped && parents == NamesOf(ancestors) && name == Display(config)
      invariant pop == 0 && popped ==>
        parents == NamesOf(ancestors)[..|ancestors| - 1] &&
        name == ancestors[|ancestors| - 1].name + "\\" + Display(config)
      invariant !popped ==> pop == 0 && parents == NamesOf(ancestors) && name == Display(config)
    {
      pop := pop - 1;
      var top := parents[|parents| - 1];
      parents := parents[..|parents| - 1];
      name := top + "\\" + name;
    }
    var namespace := if |parents| == 0 then RootNamespace else Join(parents, "\\");
    if popped {
      assert parents == NamesOf(ancestors[..|ancestors| - 1]);
    }
    st := Statement(namespace, name);
  }

  // ---------------------------------------------------------------------------
  // What the built statements say

  /** The fully qualified name a statement imports. */
  function FullName(st: Statement): String {
    if st.namespace == RootNamespace then st.name else st.namespace + "\\" + st.name
  }

  function FullNames(sts: seq<Statement>): (r: seq<String>)
    ensures |r| == |sts| && forall i :: 0 <= i < |sts| ==> r[i] == FullName(sts[i])
  {
    seq(|sts|, i requires 0 <= i < |sts| => FullName(sts[i]))
  }

  /** The reference definition: the full path of every branch end below `c`, depth first. */
  function BranchEnds(c: Config, prefix: seq<String>): seq<String>
    decreases c
  {
    if c.depth > 0 then
      var cs := c.items.OrEmpty();
      Concat(seq(|cs|, i requires 0 <= i < |cs| => BranchEnds(cs[i], prefix + [c.name])))
    else [Join(prefix + [Display(c)], "\\")]
  }

  lemma {:induction false} FullNamesConcat(xss: seq<seq<Statement>>)
    ensures FullNames(Concat(xss)) == Concat(seq(|xss|, i requires 0 <= i < |xss| => FullNames(xss[i])))
  {
    if xss != [] {
      var init := xss[..|xss| - 1];
      FullNamesConcat(init);
      assert FullNames(Concat(init) + xss[|xss| - 1]) == FullNames(Concat(init)) + FullNames(xss[|xss| - 1]);
      var ys := seq(|xss|, i requires 0 <= i < |xss| => FullNames(xss[i]));
      assert ys[..|ys| - 1] == seq(|init|, i requires 0 <= i < |init| => FullNames(init[i]));
    }
  }

  /** A joined namespace path is the root marker only if its first name is. */
  lemma JoinIsNotRoot(ns: seq<String>)
    requires ns != [] && ns[0] != RootNamespace
    ensures Join(ns, "\\") != RootNamespace
  {
    if |ns| > 1 {
      var j := Join(ns, "\\");
      assert j[|ns[0]|] == '\\';
      assert forall k :: 0 <= k < |RootNamespace| ==> RootNamespace[k] != '\\';
    }
  }

  lemma LeafFullName(c: Config, ancestors: seq<Config>)
    requires ancestors != [] ==> ancestors[0].name != RootNamespace
    ensures FullName(LeafStatement(c, ancestors)) == Join(NamesOf(ancestors) + [Display(c)], "\\")
  {
    var ns := NamesOf(ancestors);
    var st := LeafStatement(c, ancestors);
    if Pops(c, ancestors) {
      var up := NamesOf(ancestors[..|ancestors| - 1]);
      assert ns == up + [ancestors[|ancestors| - 1].name];
      if |ancestors| == 1 {
        assert ns + [Display(c)] == [ns[0], Display(c)];
      } else {
        JoinIsNotRoot(up);
        JoinSnoc(up, ns[|ns| - 1], "\\");
        JoinSnoc(ns, Display(c), "\\");
        assert up + [ns[|ns| - 1]] == ns;
      }
    } else if ancestors != [] {
      JoinIsNotRoot(ns);
      JoinSnoc(ns, Display(c), "\\");
    }
  }

  /**
   * No branch end is lost or renamed: the statements built for an entry
   * import exactly the full paths of its branch ends, in depth-first order,
   * whatever the pop rule decides.
   */
  lemma {:induction false} BuildPreservesFullNames(c: Config, ancestors: seq<Config>)
    requires ancestors == [] ==> c.name != RootNamespace
    requires ancestors != [] ==> ancestors[0].name != RootNamespace
    ensures FullNames(BuildConfig(c, ancestors)) == BranchEnds(c, NamesOf(ancestors))
    decreases c
  {
    if c.depth > 0 {
      var cs := c.items.OrEmpty();
      var anc := ancestors + [c];
      assert NamesOf(anc) == NamesOf(ancestors) + [c.name];
      var xss := seq(|cs|, i requires 0 <= i < |cs| => BuildConfig(cs[i], anc));
      FullNamesConcat(xss);
      forall i | 0 <= i < |cs|
        ensures FullNames(xss[i]) == BranchEnds(cs[i], NamesOf(ancestors) + [c.name])
      {
        BuildPreservesFullNames(cs[i], anc);
      }
      assert seq(|xss|, i requires 0 <= i < |xss| => FullNames(xss[i])) ==
        seq(|cs|, i requires 0 <= i < |cs| => BranchEnds(cs[i], NamesOf(ancestors) + [c.name]));
    } else {
      LeafFullName(c, ancestors);
    }
  }

  /** The same for a whole level of the tree. */
  lemma BuildListPreservesFullNames(cs: seq<Config>)
    requires forall i :: 0 <= i < |cs| ==> cs[i].name != RootNamespace
    ensures FullNames(BuildList(cs, [])) ==
      Concat(seq(|cs|, i requires 0 <= i < |cs| => BranchEnds(cs[i], [])))
  {
    var xss := seq(|cs|, i requires 0 <= i < |cs| => BuildConfig(cs[i], []));
    FullNamesConcat(xss);
    forall i | 0 <= i < |cs| ensures FullNames(xss[i]) == BranchEnds(cs[i], []) {
      BuildPreservesFullNames(cs[i], []);
    }
    assert seq(|xss|, i requires 0 <= i < |xss| => FullNames(xss[i])) ==
      seq(|cs|, i requires 0 <= i < |cs| => BranchEnds(cs[i], []));
  }

  /** No name and no alias in the tree contains the namespace separator, as after splitting on it. */
  predicate NoSeparators(c: Config)
    decreases c
  {
    '\\' !in c.name && (c.alias.Some? ==> '\\' !in c.alias.value) &&
    forall i :: 0 <= i < |c.items.OrEmpty()| ==> NoSeparators(c.items.OrEmpty()[i])
  }

  lemma {:induction false} ConcatMember<T>(xss: seq<seq<T>>, x: T)
    requires x in Concat(xss)
    ensures exists j :: 0 <= j < |xss| && x in xss[j]
  {
    if x !in xss[|xss| - 1] {
      ConcatMember(xss[..|xss| - 1], x);
      var j :| 0 <= j < |xss| - 1 && x in xss[..|xss| - 1][j];
    }
  }

  /**
   * Section 3 of PER Coding Style 2.0: a grouped name is at most two levels
   * deep, so every built name is a single name or one namespace and a name.
   */
  lemma {:induction false} BuiltNamesAtMostTwoLevels(c: Config, ancestors: seq<Config>)
    requires NoSeparators(c)
    requires forall i :: 0 <= i < |ancestors| ==> '\\' !in ancestors[i].name
    ensures forall st :: st in BuildConfig(c, ancestors) ==> |Split(st.name, '\\')| <= 2
    decreases c
  {
    if c.depth > 0 {
      var cs := c.items.OrEmpty();
      var anc := ancestors + [c];
      var xss := seq(|cs|, i requires 0 <= i < |cs| => BuildConfig(cs[i], anc));
      forall st | st in BuildConfig(c, ancestors) ensures |Split(st.name, '\\')| <= 2 {
        ConcatMember(xss, st);
        var j :| 0 <= j < |xss| && st in xss[j];
        BuiltNamesAtMostTwoLevels(cs[j], anc);
      }
    } else {
      var st := LeafStatement(c, ancestors);
      assert '\\' !in Display(c) by {
        if c.alias.Some? {
          AliasedHasNoBackslash(c.name, c.alias.value);
          assert Display(c) == c.name + " as " + c.alias.value;
        }
      }
      if Pops(c, ancestors) {
        SplitPrefix(ancestors[|ancestors| - 1].name, Display(c), '\\');
        SplitNoDelimiter(Display(c), '\\');
      } else {
        SplitNoDelimiter(Display(c), '\\');
      }
    }
  }

  // ---------------------------------------------------------------------------
  // Trees as `addStatement` builds them

  /** Every namespace node holds at least one name, as every node `addStatement` creates does. */
  predicate FilledNode(n: Node)
    decreases n
  {
    n.items.Present? ==>
      n.items.entries != [] &&
      forall i :: 0 <= i < |n.items.entries| ==> FilledNode(n.items.entries[i].node)
  }

  predicate Filled(es: seq<Entry>) {
    forall i :: 0 <= i < |es| ==> FilledNode(es[i].node)
  }

  lemma {:induction false} PutFilled(es: seq<Entry>, k: String, n: Node)
    requires Filled(es) && FilledNode(n)
    ensures Put(es, k, n) != [] && Filled(Put(es, k, n))
  {
    if es != [] && es[0].name != k {
      PutFilled(es[1..], k, n);
      var r := Put(es, k, n);
      assert r == [es[0]] + Put(es[1..], k, n);
      forall i | 0 <= i < |r| ensures FilledNode(r[i].node) {
        if i > 0 {
          assert r[i] == Put(es[1..], k, n)[i - 1];
        }
      }
    }
  }

  /** Inserting a statement into a filled tree gives a non-empty filled tree. */
  lemma {:induction false} InsertFilled(es: seq<Entry>, segs: seq<String>, alias: Option<String>)
    requires |segs| >= 1 && Filled(es)
    ensures Insert(es, segs, alias) != [] && Filled(Insert(es, segs, alias))
    decreases |segs|, 1
  {
    var before := Get(es, segs[0]);
    if before.Some? {
      var j :| 0 <= j < |es| && es[j] == Entry(segs[0], before.value);
    }
    UpdatedFilled(before, segs, alias);
    PutFilled(es, segs[0], Updated(before, segs, alias));
  }

  lemma {:induction false} UpdatedFilled(before: Option<Node>, segs: seq<String>, alias: Option<String>)
    requires |segs| >= 1 && (before.Some? ==> FilledNode(before.value))
    ensures FilledNode(Updated(before, segs, alias))
    decreases |segs|, 0
  {
    if |segs| > 1 {
      var n := before.GetOr(Node(false, None, Absent));
      InsertFilled(n.items.OrEmpty(), segs[1..], alias);
    }
  }

  lemma AddStatementFilled(es: seq<Entry>, statement: String)
    requires Filled(es)
    ensures AddStatement(es, statement) != [] && Filled(AddStatement(es, statement))
  {
    var parts := Split(statement, '\\');
    var (name, alias) := SplitAlias(parts[|parts| - 1]);
    InsertFilled(es, parts[..|parts| - 1] + [name], alias);
  }

  lemma {:induction false} ConcatHoldsFirst<T>(xss: seq<seq<T>>)
    requires xss != []
    ensures |Concat(xss)| >= |xss[0]|
  {
    if |xss| > 1 {
      ConcatHoldsFirst(xss[..|xss| - 1]);
    }
  }

  /** A filled entry builds at least one statement. */
  lemma {:induction false} BuildEntryNotEmpty(e: Entry, ancestors: seq<Config>)
    requires FilledNode(e.node)
    ensures BuildConfig(AnnotateEntry(e), ancestors) != []
    decreases e
  {
    var c := AnnotateEntry(e);
    if c.depth > 0 {
      var es := e.node.items.entries;
      AnnotateItems(e);
      var cs := c.items.OrEmpty();
      assert cs[0] == AnnotateEntry(es[0]);
      BuildEntryNotEmpty(es[0], ancestors + [c]);
      ConcatHoldsFirst(seq(|cs|, i requires 0 <= i < |cs| => BuildConfig(cs[i], ancestors + [c])));
    }
  }

  /** So a non-empty filled tree builds at least one statement. */
  lemma BuildListNotEmpty(es: seq<Entry>)
    requires es != [] && Filled(es)
    ensures BuildList(Annotate(es), []) != []
  {
    var cs := Annotate(es);
    BuildEntryNotEmpty(es[0], []);
    ConcatHoldsFirst(seq(|cs|, i requires 0 <= i < |cs| => BuildConfig(cs[i], [])));
  }

  /** No top-level name is the root marker. */
  predicate RootFree(es: seq<Entry>) {
    forall i :: 0 <= i < |es| ==> es[i].name != RootNamespace
  }

  /** A root-level statement never imports the root marker itself: it is a top-level name, or has a `\` in it. */
  predicate RootNamed(sts: seq<Statement>) {
    forall i :: 0 <= i < |sts| ==> sts[i].namespace == RootNamespace ==> sts[i].name != RootNamespace
  }

  lemma DisplayIsNotRoot(c: Config)
    requires c.name != RootNamespace
    ensures Display(c) != RootNamespace
  {
    if c.alias.Some? {
      assert Display(c)[|c.name|] == ' ';
      assert ' ' !in RootNamespace;
    }
  }

  lemma {:induction false} BuildConfigRootNamed(c: Config, ancestors: seq<Config>)
    requires ancestors == [] ==> c.name != RootNamespace
    requires ancestors != [] ==> ancestors[0].name != RootNamespace
    ensures RootNamed(BuildConfig(c, ancestors))
    decreases c
  {
    var r := BuildConfig(c, ancestors);
    if c.depth > 0 {
      var cs := c.items.OrEmpty();
      var anc := ancestors + [c];
      var xss := seq(|cs|, i requires 0 <= i < |cs| => BuildConfig(cs[i], anc));
      forall k | 0 <= k < |r| && r[k].namespace == RootNamespace ensures r[k].name != RootNamespace {
        ConcatMember(xss, r[k]);
        var j :| 0 <= j < |xss| && r[k] in xss[j];
        BuildConfigRootNamed(cs[j], anc);
      }
    } else {
      var st := LeafStatement(c, ancestors);
      var ns := NamesOf(ancestors);
      if Pops(c, ancestors) {
        if |ancestors| == 1 {
          assert st.name[|ancestors[0].name|] == '\\';
          assert '\\' !in RootNamespace;
        } else {
          JoinIsNotRoot(NamesOf(ancestors[..|ancestors| - 1]));
        }
      } else if ancestors == [] {
        DisplayIsNotRoot(c);
      } else {
        JoinIsNotRoot(ns);
      }
    }
  }

  /** The statements built from a tree without a top-level root marker never import the marker at the root level. */
  lemma BuildListRootNamed(es: seq<Entry>)
    requires RootFree(es)
    ensures RootNamed(BuildList(Annotate(es), []))
  {
    var cs := Annotate(es);
    var xss := seq(|cs|, i requires 0 <= i < |cs| => BuildConfig(cs[i], []));
    var r := BuildList(cs, []);
    forall k | 0 <= k < |r| && r[k].namespace == RootNamespace ensures r[k].name != RootNamespace {
      ConcatMember(xss, r[k]);
      var j :| 0 <= j < |xss| && r[k] in xss[j];
      BuildConfigRootNamed(cs[j], []);
    }
  }

  lemma AddFirstExample()
    ensures AddStatement([], "A\\B") == [Entry("A", Node(false, None, Present([Entry("B", Node(true, None, Absent))])))]
  {
    assert Join(["A", "B"], "\\") == "A\\B";
    SplitJoin(["A", "B"], '\\');
    assert FindAs("B", 0) == None by {
      assert !AsAt("B", 0);
    }
    assert Insert([], ["B"], None) == [Entry("B", Node(true, None, Absent))];
  }

  lemma AddSecondExample(es1: seq<Entry>)
    requires es1 == [Entry("A", Node(false, None, Present([Entry("B", Node(true, None, Absent))])))]
    ensures AddStatement(es1, "A\\B\\C") ==
      [Entry("A", Node(false, None, Present([Entry("B", Node(true, None, Present([Entry("C", Node(true, None, Absent))])))])))]
  {
    var parts := ["A", "B", "C"];
    assert Join(parts, "\\") == "A\\B\\C";
    SplitJoin(parts, '\\');
    assert FindAs("C", 0) == None by {
      assert !AsAt("C", 0);
    }
    assert SplitAlias("C") == ("C", None);
    assert parts[..2] + ["C"] == parts;
    assert AddStatement(es1, "A\\B\\C") == Insert(es1, parts, None);
    var b := Node(true, None, Absent);
    var a := Node(false, None, Present([Entry("B", b)]));
    var c := Node(true, None, Absent);
    assert Insert([], ["C"], None) == [Entry("C", c)];
    assert ["B", "C"][1..] == ["C"];
    assert Updated(Some(b), ["B", "C"], None) == Node(true, None, Present([Entry("C", c)]));
    var b' := Node(true, None, Present([Entry("C", c)]));
    assert Insert([Entry("B", b)], ["B", "C"], None) == [Entry("B", b')];
    assert parts[1..] == ["B", "C"];
    assert Updated(Some(a), parts, None) == Node(false, None, Present([Entry("B", b')]));
  }

  lemma AnnotateExample(es: seq<Entry>)
    requires es == [Entry("A", Node(false, None, Present([Entry("B", Node(true, None, Present([Entry("C", Node(true, None, Absent))])))])))]
    ensures Annotate(es) ==
      [Config("A", false, None, 2, SomeItems([Config("B", true, None, 1, SomeItems([Config("C", true, None, 0, NoItems)]))]))]
  {
    var c := Node(true, None, Absent);
    var b := Node(true, None, Present([Entry("C", c)]));
    var a := Node(false, None, Present([Entry("B", b)]));
    assert Depth(c) == 0;
    assert Depth(b) == 1 by {
      assert MaxOf([0]) == 0;
    }
    assert Depth(a) == 2 by {
      assert MaxOf([1]) == 1;
    }
    var cc := Config("C", true, None, 0, NoItems);
    var cb := Config("B", true, None, 1, SomeItems([cc]));
    assert AnnotateEntry(Entry("C", c)) == cc;
    assert AnnotateEntry(Entry("B", b)) == cb by {
      assert seq(1, i requires 0 <= i < 1 => AnnotateEntry([Entry("C", c)][i])) == [cc];
    }
    var ca := Config("A", false, None, 2, SomeItems([cb]));
    assert AnnotateEntry(Entry("A", a)) == ca by {
      assert seq(1, i requires 0 <= i < 1 => AnnotateEntry([Entry("B", b)][i])) == [cb];
    }
    assert Annotate(es) == [ca];
  }

  lemma BuildExample(cs: seq<Config>)
    requires cs == [Config("A", false, None, 2, SomeItems([Config("B", true, None, 1, SomeItems([Config("C", true, None, 0, NoItems)]))]))]
    ensures BuildList(cs, []) == [Statement("A\\B", "C")]
  {
    var cc := Config("C", true, None, 0, NoItems);
    var cb := Config("B", true, None, 1, SomeItems([cc]));
    var ca := cs[0];
    assert !Pops(cc, [ca, cb]) by {
      assert !HasSibling(ca, "B");
    }
    assert NamesOf([ca, cb]) == ["A", "B"];
    assert Display(cc) == "C";
    assert Join(["A", "B"], "\\") == "A\\B";
    var st := Statement("A\\B", "C");
    assert LeafStatement(cc, [ca, cb]) == st;
    assert BuildConfig(cc, [ca, cb]) == [st];
    assert [ca] + [cb] == [ca, cb];
    assert BuildConfig(cb, [ca]) == [st] by {
      assert seq(1, i requires 0 <= i < 1 => BuildConfig([cc][i], [ca] + [cb])) == [[st]];
      assert Concat([[st]]) == [st];
    }
    assert BuildConfig(ca, []) == [st] by {
      assert [] + [ca] == [ca];
      assert BuildConfig([cb][0], [] + [ca]) == [st];
      assert seq(1, i requires 0 <= i < 1 => BuildConfig([cb][i], [] + [ca])) == [[st]];
      assert Concat([[st]]) == [st];
    }
    assert seq(1, i requires 0 <= i < 1 => BuildConfig(cs[i], [])) == [[st]];
    assert Concat([[st]]) == [st];
  }

  lemma LookupExample(es: seq<Entry>)
    requires es == [Entry("A", Node(false, None, Present([Entry("B", Node(true, None, Present([Entry("C", Node(true, None, Absent))])))])))]
    ensures Lookup(es, ["A", "B"]) == Some(Node(true, None, Present([Entry("C", Node(true, None, Absent))])))
  {
    assert ["A", "B"][1..] == ["B"];
  }

  /**
   * Only branch ends are written: for `use A\B; use A\B\C;` the name `A\B` is
   * imported, but having a sub-name it is not a branch end, so only
   * `A\B\C` is built.
   */
  lemma ImportWithSubNamesIsNotBuilt(first: seq<Entry>, es: seq<Entry>)
    requires first == AddStatement([], "A\\B")
    requires es == AddStatement(first, "A\\B\\C")
    ensures Lookup(es, ["A", "B"]) == Some(Node(true, None, Present([Entry("C", Node(true, None, Absent))])))
    ensures FullNames(BuildList(Annotate(es), [])) == ["A\\B\\C"]
  {
    AddFirstExample();
    AddSecondExample(first);
    LookupExample(es);
    FullNamesExample(es);
  }

  lemma FullNamesExample(es: seq<Entry>)
    requires es == [Entry("A", Node(false, None, Present([Entry("B", Node(true, None, Present([Entry("C", Node(true, None, Absent))])))])))]
    ensures FullNames(BuildList(Annotate(es), [])) == ["A\\B\\C"]
  {
    AnnotateExample(es);
    BuildExample(Annotate(es));
    FullNamesOne(Statement("A\\B", "C"));
  }

  lemma FullNamesOne(st: Statement)
    requires st == Statement("A\\B", "C")
    ensures FullNames([st]) == ["A\\B\\C"]
  {
    assert |st.namespace| == 3;
    assert FullName(st) == "A\\B\\C";
    var r := FullNames([st]);
    assert |r| == 1 && r[0] == "A\\B\\C";
  }
}
