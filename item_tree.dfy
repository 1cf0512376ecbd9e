/**
 * The object tree of the use-statement formatter: `Item`s (one per name
 * segment) held in name-keyed `ItemContainer`s, each item owning the
 * container of its children, and the two grouping passes over it.
 *
 * Every `Item` and `ItemContainer` the program creates lives in one `Arena`;
 * an object is its id, and ids come from a counter per class, so the id of
 * a new object is the number of objects of its class created before it.
 */
module ItemTree {

  import opened Wrappers
  import opened Strings

  type ItemId = nat
  type ContainerId = nat

  /**
   * An `Item`: its name segment, whether it is imported itself (`use`), its
   * alias, the container it was added to and the container of its children.
   */
  datatype ItemRec = ItemRec(name: String, use: bool, alias: Option<String>,
                             container: Option<ContainerId>, children: ContainerId)

  /** One entry of a container's `$items` array: the item's name as key, the item as value. */
  datatype Member = Member(key: String, id: ItemId)

  /** An `ItemContainer`: the item whose children it holds (none for a root) and its entries in insertion order. */
  datatype ContainerRec = ContainerRec(parent: Option<ItemId>, members: seq<Member>)

  /** `No parent defined on Item` and `Unable to group all items`. */
  datatype TreeError = NoContainer | Ungrouped

  /** What the grouping passes yield: a single name (priority 1) or a namespace with a list of names (priority 2). */
  datatype Group = Single(fqn: String) | Grouped(namespace: String, names: seq<String>) {
    function Priority(): nat {
      if Single? then 1 else 2
    }
  }

  // ---------------------------------------------------------------------------
  // A container's name-keyed entries

  predicate DistinctKeys(ms: seq<Member>) {
    forall a, b :: 0 <= a < b < |ms| ==> ms[a].key != ms[b].key
  }

  /** `$this->items[$name] ?? null`. */
  function FindMember(ms: seq<Member>, key: String): (r: Option<ItemId>)
    ensures r.None? <==> forall m :: m in ms ==> m.key != key
    ensures r.Some? ==> Member(key, r.value) in ms
  {
    if ms == [] then None
    else if ms[0].key == key then Some(ms[0].id)
    else FindMember(ms[1..], key)
  }

  /** `$this->items[$key] = $item`: an existing key keeps its place, a new one goes last. */
  function PutMember(ms: seq<Member>, key: String, id: ItemId): (r: seq<Member>)
    ensures forall m :: m in r ==> m in ms || m == Member(key, id)
    ensures FindMember(ms, key).None? ==> r == ms + [Member(key, id)]
  {
    if ms == [] then [Member(key, id)]
    else if ms[0].key == key then [Member(key, id)] + ms[1..]
    else [ms[0]] + PutMember(ms[1..], key, id)
  }

  lemma {:induction false} PutMemberFinds(ms: seq<Member>, key: String, id: ItemId, other: String)
    ensures FindMember(PutMember(ms, key, id), key) == Some(id)
    ensures other != key ==> FindMember(PutMember(ms, key, id), other) == FindMember(ms, other)
  {
    if ms != [] && ms[0].key != key {
      PutMemberFinds(ms[1..], key, id, other);
      assert PutMember(ms, key, id)[1..] == PutMember(ms[1..], key, id);
    } else if ms != [] {
      assert PutMember(ms, key, id)[1..] == ms[1..];
    }
  }

  lemma {:induction false} PutMemberKeepsDistinct(ms: seq<Member>, key: String, id: ItemId)
    requires DistinctKeys(ms)
    ensures DistinctKeys(PutMember(ms, key, id))
    ensures |PutMember(ms, key, id)| == |ms| + (if FindMember(ms, key).None? then 1 else 0)
  {
    if ms != [] && ms[0].key != key {
      PutMemberKeepsDistinct(ms[1..], key, id);
      var r := PutMember(ms, key, id);
      forall a, b | 0 <= a < b < |r|
        ensures r[a].key != r[b].key
      {
        if a == 0 {
          assert r[b] in PutMember(ms[1..], key, id);
          assert r[b] in ms[1..] || r[b] == Member(key, id);
          if r[b] in ms[1..] {
            var j :| 0 <= j < |ms[1..]| && ms[1..][j] == r[b];
            assert ms[j + 1] == r[b];
          }
        } else {
          assert r[a] == PutMember(ms[1..], key, id)[a - 1];
          assert r[b] == PutMember(ms[1..], key, id)[b - 1];
        }
      }
    } else if ms != [] {
      var r := PutMember(ms, key, id);
      forall a, b | 0 <= a < b < |r|
        ensures r[a].key != r[b].key
      {
        assert r[b] == ms[b];
        if a > 0 {
          assert r[a] == ms[a];
        }
      }
    }
  }

  function Ids(ms: seq<Member>): (r: seq<ItemId>)
    ensures |r| == |ms|
    ensures forall k :: 0 <= k < |ms| ==> r[k] == ms[k].id
  {
    if ms == [] then [] else Ids(ms[..|ms| - 1]) + [ms[|ms| - 1].id]
  }

  /** PHP `$a += $b` on arrays keyed by id: the ids of `b` not yet in `a` are appended in order. */
  function Union(a: seq<ItemId>, b: seq<ItemId>): (r: seq<ItemId>)
    ensures forall x :: x in r <==> x in a || x in b
    ensures |a| <= |r| && r[..|a|] == a
  {
    if b == [] then a
    else
      var acc := Union(a, b[..|b| - 1]);
      assert b == b[..|b| - 1] + [b[|b| - 1]];
      if b[|b| - 1] in acc then acc else acc + [b[|b| - 1]]
  }

  /** No id occurs twice, as in a PHP array keyed by item id. */
  predicate Unique(xs: seq<ItemId>) {
    forall a, b :: 0 <= a < b < |xs| ==> xs[a] != xs[b]
  }

  /** `+=` onto an array without repeated ids gives one without repeated ids. */
  lemma {:induction false} UnionUnique(a: seq<ItemId>, b: seq<ItemId>)
    requires Unique(a)
    ensures Unique(Union(a, b))
    decreases |b|
  {
    if b != [] {
      UnionUnique(a, b[..|b| - 1]);
    }
  }

  /** `unset($items[$id])` for every id in `ids`. */
  function Remove(ws: seq<ItemId>, ids: set<ItemId>): (r: seq<ItemId>)
    ensures forall x :: x in r <==> x in ws && x !in ids
    ensures |r| <= |ws|
  {
    if ws == [] then []
    else (if ws[0] in ids then [] else [ws[0]]) + Remove(ws[1..], ids)
  }


  /** A name after its namespace, separated by `\`; an empty namespace adds nothing. */
  function Qualify(namespace: String, name: String): String {
    if namespace == "" then name else namespace + "\\" + name
  }

  // ---------------------------------------------------------------------------
  // Well-formed arenas

  /** Parent ids are smaller than the ids below them; a parent owns the container of its children. */
  ghost predicate ItemOkIn(items: seq<ItemRec>, cs: seq<ContainerRec>, i: ItemId) {
    i < |items| &&
    var it := items[i];
    it.children < |cs| && cs[it.children].parent == Some(i) &&
    (it.container.Some? ==>
      it.container.value < |cs| &&
      (cs[it.container.value].parent.Some? ==> cs[it.container.value].parent.value < i))
  }

  /** Keys are the items' names, and every item in a container is newer than the container's parent. */
  ghost predicate ContainerOkIn(items: seq<ItemRec>, cs: seq<ContainerRec>, c: ContainerId) {
    c < |cs| &&
    var ct := cs[c];
    (ct.parent.Some? ==> ct.parent.value < |items| && items[ct.parent.value].children == c) &&
    DistinctKeys(ct.members) &&
    (forall m :: m in ct.members ==>
      m.id < |items| && m.key == items[m.id].name && (ct.parent.Some? ==> ct.parent.value < m.id))
  }

  ghost predicate ValidIn(items: seq<ItemRec>, cs: seq<ContainerRec>) {
    (forall i :: 0 <= i < |items| ==> ItemOkIn(items, cs, i)) &&
    (forall c :: 0 <= c < |cs| ==> ContainerOkIn(items, cs, c))
  }

  /** Every item listed in a container points back to it, and every item that points to a container is listed in it. */
  ghost predicate ConsistentIn(items: seq<ItemRec>, cs: seq<ContainerRec>) {
    (forall c, m :: 0 <= c < |cs| && m in cs[c].members ==>
      m.id < |items| && items[m.id].container == Some(c)) &&
    (forall i :: 0 <= i < |items| && items[i].container.Some? ==>
      items[i].container.value < |cs| && i in Ids(cs[items[i].container.value].members))
  }

  /** Every item has been added to a container. */
  ghost predicate PlacedIn(items: seq<ItemRec>) {
    forall i :: 0 <= i < |items| ==> items[i].container.Some?
  }

  lemma NewItemKeepsValid(items: seq<ItemRec>, cs: seq<ContainerRec>, it: ItemRec)
    requires ValidIn(items, cs)
    requires it.container.None? && it.children == |cs|
    ensures ValidIn(items + [it], cs + [ContainerRec(Some(|items|), [])])
    ensures ConsistentIn(items, cs) ==> ConsistentIn(items + [it], cs + [ContainerRec(Some(|items|), [])])
  {
    var items', cs' := items + [it], cs + [ContainerRec(Some(|items|), [])];
    assert forall j :: 0 <= j < |items| ==> ItemOkIn(items, cs, j) ==> ItemOkIn(items', cs', j);
    assert ItemOkIn(items', cs', |items|);
    assert forall c :: 0 <= c < |cs| ==> ContainerOkIn(items, cs, c) ==> ContainerOkIn(items', cs', c);
    assert ContainerOkIn(items', cs', |cs|);
    if ConsistentIn(items, cs) {
      forall j | 0 <= j < |items'| && items'[j].container.Some?
        ensures items'[j].container.value < |cs'| && j in Ids(cs'[items'[j].container.value].members)
      {
        assert j < |items|;
      }
    }
  }

  lemma NewRootKeepsValid(items: seq<ItemRec>, cs: seq<ContainerRec>)
    requires ValidIn(items, cs)
    ensures ValidIn(items, cs + [ContainerRec(None, [])])
  {
    var cs' := cs + [ContainerRec(None, [])];
    assert forall j :: 0 <= j < |items| ==> ItemOkIn(items, cs, j) ==> ItemOkIn(items, cs', j);
    assert forall c :: 0 <= c < |cs| ==> ContainerOkIn(items, cs, c) ==> ContainerOkIn(items, cs', c);
    assert ContainerOkIn(items, cs', |cs|);
  }

  lemma AddKeepsValid(items: seq<ItemRec>, cs: seq<ContainerRec>, c: ContainerId, i: ItemId)
    requires ValidIn(items, cs) && c < |cs| && i < |items|
    requires cs[c].parent.Some? ==> cs[c].parent.value < i
    ensures var items' := items[i := items[i].(container := Some(c))];
      ValidIn(items', cs[c := ContainerRec(cs[c].parent, PutMember(cs[c].members, items[i].name, i))]) &&
      (PlacedIn(items) ==> PlacedIn(items'))
  {
    var items' := items[i := items[i].(container := Some(c))];
    var cs' := cs[c := ContainerRec(cs[c].parent, PutMember(cs[c].members, items[i].name, i))];
    AddKeepsItemsOk(items, cs, c, i, items', cs');
    AddKeepsContainersOk(items, cs, c, i, items', cs');
    if PlacedIn(items) {
      forall j | 0 <= j < |items'| ensures items'[j].container.Some? {
        assert items[j].container.Some?;
      }
    }
  }

  lemma AddKeepsItemsOk(items: seq<ItemRec>, cs: seq<ContainerRec>, c: ContainerId, i: ItemId,
                        items': seq<ItemRec>, cs': seq<ContainerRec>)
    requires ValidIn(items, cs) && c < |cs| && i < |items|
    requires cs[c].parent.Some? ==> cs[c].parent.value < i
    requires items' == items[i := items[i].(container := Some(c))]
    requires cs' == cs[c := ContainerRec(cs[c].parent, PutMember(cs[c].members, items[i].name, i))]
    ensures forall j :: 0 <= j < |items'| ==> ItemOkIn(items', cs', j)
  {
    forall j | 0 <= j < |items'| ensures ItemOkIn(items', cs', j) {
      assert ItemOkIn(items, cs, j);
    }
  }

  lemma AddKeepsContainersOk(items: seq<ItemRec>, cs: seq<ContainerRec>, c: ContainerId, i: ItemId,
                             items': seq<ItemRec>, cs': seq<ContainerRec>)
    requires ValidIn(items, cs) && c < |cs| && i < |items|
    requires cs[c].parent.Some? ==> cs[c].parent.value < i
    requires items' == items[i := items[i].(container := Some(c))]
    requires cs' == cs[c := ContainerRec(cs[c].parent, PutMember(cs[c].members, items[i].name, i))]
    ensures forall d :: 0 <= d < |cs'| ==> ContainerOkIn(items', cs', d)
  {
    assert ContainerOkIn(items, cs, c);
    PutMemberKeepsDistinct(cs[c].members, items[i].name, i);
    forall d | 0 <= d < |cs'| ensures ContainerOkIn(items', cs', d) {
      assert ContainerOkIn(items, cs, d);
    }
  }

  /** Adding an item that sits nowhere under a name the container does not hold keeps containers and items in agreement. */
  lemma AddKeepsConsistent(items: seq<ItemRec>, cs: seq<ContainerRec>, c: ContainerId, i: ItemId)
    requires ConsistentIn(items, cs) && c < |cs| && i < |items|
    requires items[i].container.None?
    ensures var cs' := cs[c := ContainerRec(cs[c].parent, cs[c].members + [Member(items[i].name, i)])];
      ConsistentIn(items[i := items[i].(container := Some(c))], cs')
  {
    var items' := items[i := items[i].(container := Some(c))];
    var cs' := cs[c := ContainerRec(cs[c].parent, cs[c].members + [Member(items[i].name, i)])];
    AddKeepsMembersListed(items, cs, c, i, items', cs');
    AddKeepsItemsListed(items, cs, c, i, items', cs');
  }

  /** After the add, every member of a container still points back to it. */
  lemma AddKeepsMembersListed(items: seq<ItemRec>, cs: seq<ContainerRec>, c: ContainerId, i: ItemId,
                              items': seq<ItemRec>, cs': seq<ContainerRec>)
    requires ConsistentIn(items, cs) && c < |cs| && i < |items|
    requires items[i].container.None?
    requires items' == items[i := items[i].(container := Some(c))]
    requires cs' == cs[c := ContainerRec(cs[c].parent, cs[c].members + [Member(items[i].name, i)])]
    ensures forall d, m :: 0 <= d < |cs'| && m in cs'[d].members ==>
      m.id < |items'| && items'[m.id].container == Some(d)
  {
    var m' := Member(items[i].name, i);
    forall d, m | 0 <= d < |cs'| && m in cs'[d].members
      ensures m.id < |items'| && items'[m.id].container == Some(d)
    {
      if d != c || m != m' {
        assert m in cs[d].members;
      }
    }
  }

  /** After the add, every item placed in a container is listed in it. */
  lemma AddKeepsItemsListed(items: seq<ItemRec>, cs: seq<ContainerRec>, c: ContainerId, i: ItemId,
                            items': seq<ItemRec>, cs': seq<ContainerRec>)
    requires ConsistentIn(items, cs) && c < |cs| && i < |items|
    requires items' == items[i := items[i].(container := Some(c))]
    requires cs' == cs[c := ContainerRec(cs[c].parent, cs[c].members + [Member(items[i].name, i)])]
    ensures forall j :: 0 <= j < |items'| && items'[j].container.Some? ==>
      items'[j].container.value < |cs'| && j in Ids(cs'[items'[j].container.value].members)
  {
    assert Ids(cs'[c].members) == Ids(cs[c].members) + [i];
    forall j | 0 <= j < |items'| && items'[j].container.Some?
      ensures items'[j].container.value < |cs'| && j in Ids(cs'[items'[j].container.value].members)
    {
      if j != i {
        var d := items[j].container.value;
        assert j in Ids(cs[d].members);
      }
    }
  }

  /** Everything `add` keeps, stated on the item and container lists before and after. */
  lemma AddPreserves(items: seq<ItemRec>, cs: seq<ContainerRec>, c: ContainerId, i: ItemId,
                     items': seq<ItemRec>, cs': seq<ContainerRec>)
    requires ValidIn(items, cs) && c < |cs| && i < |items|
    requires cs[c].parent.Some? ==> cs[c].parent.value < i
    requires items' == items[i := items[i].(container := Some(c))]
    requires cs' == cs[c := ContainerRec(cs[c].parent, PutMember(cs[c].members, items[i].name, i))]
    ensures ValidIn(items', cs') && (PlacedIn(items) ==> PlacedIn(items'))
    ensures FindMember(cs'[c].members, items[i].name) == Some(i)
    ensures ConsistentIn(items, cs) && items[i].container.None? && FindMember(cs[c].members, items[i].name).None? ==>
      ConsistentIn(items', cs')
  {
    AddKeepsValid(items, cs, c, i);
    PutMemberFinds(cs[c].members, items[i].name, i, items[i].name);
    if ConsistentIn(items, cs) && items[i].container.None? && FindMember(cs[c].members, items[i].name).None? {
      AddKeepsConsistent(items, cs, c, i);
    }
  }

  // ---------------------------------------------------------------------------
  // The arena

  class Arena {
    var items: seq<ItemRec>
    var containers: seq<ContainerRec>
    /** The items whose `grouped` flag is set. */
    var grouped: set<ItemId>

    ghost predicate Valid()
      reads this`items, this`containers
    {
      ValidIn(items, containers)
    }

    ghost predicate Consistent()
      reads this`items, this`containers
    {
      ConsistentIn(items, containers)
    }

    ghost predicate Placed()
      reads this`items, this`containers
    {
      PlacedIn(items)
    }

    constructor ()
      ensures items == [] && containers == [] && grouped == {}
      ensures Valid()
    {
      items := [];
      containers := [];
      grouped := {};
    }

    /**
     * `new Item($name, $use, $alias)`: the next item id, no container yet, and
     * an empty container for its children.
     */
    method NewItem(name: String, use: bool, alias: Option<String>) returns (i: ItemId)
      requires Valid()
      modifies this
      ensures i == |old(items)|
      ensures items == old(items) + [ItemRec(name, use, alias, None, |old(containers)|)]
      ensures containers == old(containers) + [ContainerRec(Some(i), [])]
      ensures grouped == old(grouped)
      ensures Valid()
      ensures old(Consistent()) ==> Consistent()
    {
      NewItemKeepsValid(items, containers, ItemRec(name, use, alias, None, |containers|));
      i := |items|;
      items := items + [ItemRec(name, use, alias, None, |containers|)];
      containers := containers + [ContainerRec(Some(i), [])];
    }

    /** `new ItemContainer()`: a root container, with no parent item. */
    method NewRoot() returns (c: ContainerId)
      requires Valid()
      modifies this
      ensures c == |old(containers)|
      ensures items == old(items) && grouped == old(grouped)
      ensures containers == old(containers) + [ContainerRec(None, [])]
      ensures Valid()
    {
      NewRootKeepsValid(items, containers);
      c := |containers|;
      containers := containers + [ContainerRec(None, [])];
    }

    /** `has`. */
    function Has(c: ContainerId, name: String): (r: bool)
      requires c < |containers|
      reads this`items, this`containers
      ensures r <==> exists m :: m in containers[c].members && m.key == name
    {
      FindMember(containers[c].members, name).Some?
    }

    /** `find`. */
    function Find(c: ContainerId, name: String): (r: Option<ItemId>)
      requires c < |containers|
      reads this`items, this`containers
      ensures r.Some? <==> Has(c, name)
      ensures r.Some? ==> Member(name, r.value) in containers[c].members
    {
      FindMember(containers[c].members, name)
    }

    /** `isEmpty`. */
    function IsEmpty(c: ContainerId): (r: bool)
      requires c < |containers|
      reads this`items, this`containers
      ensures r <==> Count(c) == 0
    {
      containers[c].members == []
    }

    /** `count`. */
    function Count(c: ContainerId): nat
      requires c < |containers|
      reads this`items, this`containers
    {
      |containers[c].members|
    }

    // -------------------------------------------------------------------------
    // Reading the tree

    /** `getName`: the name, followed by ` as ` and the alias when asked for and set. */
    function Name(i: ItemId, withAlias: bool): (r: String)
      requires i < |items|
      reads this`items, this`containers
      ensures |items[i].name| <= |r| && r[..|items[i].name|] == items[i].name
      ensures |r| > |items[i].name| <==> withAlias && items[i].alias.Some?
    {
      if withAlias && items[i].alias.Some? then items[i].name + " as " + items[i].alias.value
      else items[i].name
    }

    /** `getContainer`: throws for an item that was never added. */
    function Container(i: ItemId): (r: Result<ContainerId, TreeError>)
      requires Valid() && i < |items|
      reads this`items, this`containers
      ensures r.Failure? <==> items[i].container.None?
      ensures r.Success? ==> r.value < |containers| && Some(r.value) == items[i].container
    {
      assert ItemOkIn(items, containers, i);
      match items[i].container
      case None => Failure(NoContainer)
      case Some(c) => Success(c)
    }

    /** The parent item of the container an item sits in (`$item->getContainer()->parent`). */
    function Up(i: ItemId): (r: Result<Option<ItemId>, TreeError>)
      requires Valid() && i < |items|
      reads this`items, this`containers
      ensures r.Failure? <==> items[i].container.None?
      ensures r.Success? && r.value.Some? ==> r.value.value < i
    {
      assert ItemOkIn(items, containers, i);
      match Container(i)
      case Failure(e) => Failure(e)
      case Success(c) => Success(containers[c].parent)
    }

    /**
     * The items from the root level down to `i`, each one the parent of the
     * container the next one sits in.
     */
    function Path(i: ItemId): (r: Result<seq<ItemId>, TreeError>)
      requires Valid() && i < |items|
      reads this`items, this`containers
      ensures r.Success? ==> |r.value| >= 1 && r.value[|r.value| - 1] == i
      ensures r.Success? ==> forall a, b :: 0 <= a < b < |r.value| ==> r.value[a] < r.value[b]
      ensures r.Success? ==> forall k :: 0 <= k < |r.value| ==> r.value[k] < |items|
      decreases i
    {
      match Up(i)
      case Failure(e) => Failure(e)
      case Success(None) => Success([i])
      case Success(Some(p)) =>
        match Path(p)
        case Failure(e) => Failure(e)
        case Success(ps) => Success(ps + [i])
    }

    /** `Item::getDepth`: one more than the depth of its container. */
    function ItemDepth(i: ItemId): (r: Result<nat, TreeError>)
      requires Valid() && i < |items|
      reads this`items, this`containers
      decreases i + 1, 1
    {
      assert ItemOkIn(items, containers, i);
      match items[i].container
      case None => Failure(NoContainer)
      case Some(c) =>
        match ContainerDepth(c)
        case Failure(e) => Failure(e)
        case Success(d) => Success(d + 1)
    }

    /** `ItemContainer::getDepth`: 0 for a root, otherwise the depth of its parent item. */
    function ContainerDepth(c: ContainerId): (r: Result<nat, TreeError>)
      requires Valid() && c < |containers|
      reads this`items, this`containers
      decreases (if containers[c].parent.Some? then containers[c].parent.value + 1 else 0), 2
    {
      assert ContainerOkIn(items, containers, c);
      match containers[c].parent
      case None => Success(0)
      case Some(p) => ItemDepth(p)
    }

    /**
     * `getNamespace`: the names of the items above `i`, joined by `\`,
     * stopping below `until` when it is one of them.
     */
    function Namespace(i: ItemId, until: Option<ItemId>): (r: Result<String, TreeError>)
      requires Valid() && i < |items|
      reads this`items, this`containers
      decreases i
    {
      match Up(i)
      case Failure(e) => Failure(e)
      case Success(None) => Success("")
      case Success(Some(p)) =>
        if until == Some(p) then Success("")
        else
          match Namespace(p, until)
          case Failure(e) => Failure(e)
          case Success(ns) => Success(Qualify(ns, items[p].name))
    }

    /** `getFullyQualifiedName`. */
    function FullName(i: ItemId, withAlias: bool, until: Option<ItemId>): (r: Result<String, TreeError>)
      requires Valid() && i < |items|
      reads this`items, this`containers
    {
      match Namespace(i, until)
      case Failure(e) => Failure(e)
      case Success(ns) => Success(Qualify(ns, Name(i, withAlias)))
    }

    /** `getParent`: the item `n` levels up, or none once the climb passes the root level. */
    function Parent(i: ItemId, n: int): (r: Result<Option<ItemId>, TreeError>)
      requires Valid() && i < |items|
      reads this`items, this`containers
      ensures r.Success? && r.value.Some? ==> r.value.value < |items|
      decreases i
    {
      if n <= 0 then Success(Some(i))
      else
        match Up(i)
        case Failure(e) => Failure(e)
        case Success(None) => Success(None)
        case Success(Some(p)) => Parent(p, n - 1)
    }

    /** `getChildren`: the container of the item's children. */
    function Children(i: ItemId): (r: ContainerId)
      requires Valid() && i < |items|
      reads this`items, this`containers
      ensures r < |containers| && containers[r].parent == Some(i)
    {
      assert ItemOkIn(items, containers, i);
      items[i].children
    }

    /** `hasChildren`. */
    predicate HasChildren(i: ItemId)
      requires Valid() && i < |items|
      reads this`items, this`containers
    {
      containers[Children(i)].members != []
    }

    /** `isLast`: the end of a branch. */
    predicate IsLast(i: ItemId)
      requires Valid() && i < |items|
      reads this`items, this`containers
    {
      !HasChildren(i)
    }

    /** What the recursion over a container's subtree decreases: containers further down rank lower. */
    function Rank(c: ContainerId): nat
      requires c < |containers|
      reads this`items, this`containers
    {
      match containers[c].parent
      case None => |items| + 1
      case Some(p) => if p < |items| then |items| - p else 0
    }

    /** `Item::getCountToLast`: 0 at the end of a branch, otherwise its children's count. */
    function ItemCountToLast(i: ItemId): (r: nat)
      requires Valid() && i < |items|
      reads this`items, this`containers
      ensures r > 0 <==> HasChildren(i)
      decreases |items| - i, 2
    {
      if HasChildren(i) then ContainerCountToLast(Children(i)) else 0
    }

    /** `ItemContainer::getCountToLast`: one more than the largest count among its items. */
    function ContainerCountToLast(c: ContainerId): (r: nat)
      requires Valid() && c < |containers|
      reads this`items, this`containers
      ensures r >= 1
      ensures containers[c].members == [] ==> r == 1
      decreases Rank(c), 1
    {
      1 + MaxCount(c, containers[c].members)
    }

    /** The largest `getCountToLast` among the entries `ms` of container `c`, or 0 when there are none. */
    function MaxCount(c: ContainerId, ms: seq<Member>): (r: nat)
      requires Valid() && c < |containers|
      requires forall m :: m in ms ==> m in containers[c].members
      reads this`items, this`containers
      ensures ms == [] ==> r == 0
      decreases Rank(c), 0, |ms|
    {
      assert ContainerOkIn(items, containers, c);
      if ms == [] then 0
      else
        var front := ms[..|ms| - 1];
        assert ms[|ms| - 1] in containers[c].members;
        assert forall k :: 0 <= k < |front| ==> front[k] == ms[k];
        var rest := MaxCount(c, front);
        var last := ItemCountToLast(ms[|ms| - 1].id);
        if last <= rest then rest else last
    }

    /** A sibling in the sense of `getSiblings`: imported itself, or the end of a branch. */
    predicate IsSibling(i: ItemId)
      requires Valid() && i < |items|
      reads this`items, this`containers
    {
      items[i].use || IsLast(i)
    }

    function SiblingsOf(ms: seq<Member>): (r: seq<ItemId>)
      requires Valid() && forall m :: m in ms ==> m.id < |items|
      reads this`items, this`containers
      ensures forall x :: x in r <==> x in Ids(ms) && x < |items| && IsSibling(x)
      ensures forall k :: 0 <= k < |r| ==> r[k] < |items|
    {
      if ms == [] then []
      else
        var m := ms[|ms| - 1];
        assert Ids(ms) == Ids(ms[..|ms| - 1]) + [m.id];
        SiblingsOf(ms[..|ms| - 1]) + (if IsSibling(m.id) then [m.id] else [])
    }

    /** `getSiblings`: the container's siblings, in insertion order. */
    function Siblings(c: ContainerId): (r: seq<ItemId>)
      requires Valid() && c < |containers|
      reads this`items, this`containers
      ensures forall k :: 0 <= k < |r| ==> r[k] < |items|
    {
      assert ContainerOkIn(items, containers, c);
      SiblingsOf(containers[c].members)
    }

    /** Rendered on its own: a sibling not yet grouped. */
    predicate IsRenderable(i: ItemId, g: set<ItemId>)
      requires Valid() && i < |items|
      reads this`items, this`containers
    {
      IsSibling(i) && i !in g
    }

    /**
     * `getRenderableItems` with `g` as the set of grouped items: each item of
     * the container that is renderable, followed by those of its subtree.
     */
    function Renderable(c: ContainerId, g: set<ItemId>): (r: seq<ItemId>)
      requires Valid() && c < |containers|
      reads this`items, this`containers
      ensures forall y :: y in r ==> y < |items| && IsRenderable(y, g)
      decreases Rank(c), 1
    {
      RenderableOf(c, containers[c].members, g)
    }

    function RenderableOf(c: ContainerId, ms: seq<Member>, g: set<ItemId>): (r: seq<ItemId>)
      requires Valid() && c < |containers|
      requires forall m :: m in ms ==> m in containers[c].members
      reads this`items, this`containers
      ensures forall y :: y in r ==> y < |items| && IsRenderable(y, g)
      decreases Rank(c), 0, |ms|
    {
      if ms == [] then []
      else
        assert ContainerOkIn(items, containers, c) && ms[|ms| - 1] in containers[c].members;
        var acc := RenderableOf(c, ms[..|ms| - 1], g);
        var i := ms[|ms| - 1].id;
        var acc' := if IsRenderable(i, g) then Union(acc, [i]) else acc;
        if ItemCountToLast(i) > 0 && HasChildren(i) then Union(acc', Renderable(Children(i), g)) else acc'
    }

    // -------------------------------------------------------------------------
    // What the reads mean

    /** A container's count is one more than the largest count among its items, and 1 when it is empty. */
    lemma CountToLastIsMax(c: ContainerId)
      requires Valid() && c < |containers|
      ensures var ms := containers[c].members;
        (forall k :: 0 <= k < |ms| ==> ms[k].id < |items| && ItemCountToLast(ms[k].id) < ContainerCountToLast(c)) &&
        (ms != [] ==> exists k :: 0 <= k < |ms| && ms[k].id < |items| && ContainerCountToLast(c) == ItemCountToLast(ms[k].id) + 1)
    {
      MaxCountIsMax(c, containers[c].members);
    }

    /** `MaxCount` bounds every entry's count and is reached by one of them. */
    lemma {:induction false} MaxCountIsMax(c: ContainerId, ms: seq<Member>)
      requires Valid() && c < |containers|
      requires forall m :: m in ms ==> m in containers[c].members
      ensures forall k :: 0 <= k < |ms| ==> ms[k].id < |items| && ItemCountToLast(ms[k].id) <= MaxCount(c, ms)
      ensures ms != [] ==> exists k :: 0 <= k < |ms| && ms[k].id < |items| && MaxCount(c, ms) == ItemCountToLast(ms[k].id)
    {
      if ms != [] {
        var front := ms[..|ms| - 1];
        assert ContainerOkIn(items, containers, c) && ms[|ms| - 1] in containers[c].members;
        assert forall k :: 0 <= k < |front| ==> front[k] == ms[k];
        MaxCountIsMax(c, front);
        var last := ItemCountToLast(ms[|ms| - 1].id);
        if front == [] || last > MaxCount(c, front) {
          assert MaxCount(c, ms) == ItemCountToLast(ms[|ms| - 1].id);
        } else {
          var k :| 0 <= k < |front| && front[k].id < |items| && MaxCount(c, front) == ItemCountToLast(front[k].id);
          assert ms[k] == front[k];
        }
      }
    }

    /** An item's depth is the length of its chain from the root level; both fail together. */
    lemma {:induction false} DepthIsPathLength(i: ItemId)
      requires Valid() && i < |items|
      ensures ItemDepth(i).Success? <==> Path(i).Success?
      ensures Path(i).Success? ==> ItemDepth(i).value == |Path(i).value|
      decreases i
    {
      assert ItemOkIn(items, containers, i);
      match items[i].container
      case None =>
      case Some(c) =>
        assert ContainerOkIn(items, containers, c);
        match containers[c].parent
        case None =>
        case Some(p) =>
          DepthIsPathLength(p);
    }

    /** `getParent(n)` is the item `n` places up the chain, and none when the chain is not longer than `n`. */
    lemma {:induction false} ParentOnPath(i: ItemId, n: int)
      requires Valid() && i < |items| && Path(i).Success?
      ensures var ps := Path(i).value;
        Parent(i, n) == Success(if n <= 0 then Some(i) else if n < |ps| then Some(ps[|ps| - 1 - n]) else None)
      decreases i
    {
      if n > 0 {
        match Up(i)
        case Success(None) =>
        case Success(Some(p)) =>
          ParentOnPath(p, n - 1);
          var ps := Path(p).value;
          var qs := ps + [i];
          assert Path(i).value == qs;
          assert Parent(i, n) == Parent(p, n - 1);
          if n - 1 <= 0 {
            assert qs[|qs| - 1 - n] == ps[|ps| - 1] == p;
          } else if n - 1 < |ps| {
            assert qs[|qs| - 1 - n] == ps[|ps| - 1 - (n - 1)];
          }
      }
    }

    /** For `n >= 1`, `getParent(n)` is null exactly when the item is at most `n` deep; otherwise it is `n` levels higher. */
    lemma ParentIsNullIffShallow(i: ItemId, n: int)
      requires Valid() && i < |items| && ItemDepth(i).Success? && n >= 1
      ensures Parent(i, n).Success?
      ensures Parent(i, n).value.None? <==> ItemDepth(i).value <= n
      ensures Parent(i, n).value.Some? ==>
        var p := Parent(i, n).value.value; p < |items| && ItemDepth(p) == Success(ItemDepth(i).value - n)
    {
      DepthIsPathLength(i);
      ParentOnPath(i, n);
      var ps := Path(i).value;
      if n < |ps| {
        var p := ps[|ps| - 1 - n];
        PathPrefix(i, |ps| - 1 - n);
        DepthIsPathLength(p);
      }
    }

    /** Every item on the chain has the chain up to it as its own chain. */
    lemma {:induction false} PathPrefix(i: ItemId, k: nat)
      requires Valid() && i < |items| && Path(i).Success? && k < |Path(i).value|
      ensures Path(i).value[k] < |items|
      ensures Path(Path(i).value[k]) == Success(Path(i).value[..k + 1])
      decreases i
    {
      var ps := Path(i).value;
      if k < |ps| - 1 {
        match Up(i)
        case Success(Some(p)) =>
          PathPrefix(p, k);
          assert ps == Path(p).value + [i];
          assert ps[..k + 1] == Path(p).value[..k + 1];
      } else {
        assert ps[..k + 1] == ps;
      }
    }

    /** The names along a chain. */
    function PathNames(ps: seq<ItemId>): (r: seq<String>)
      requires forall k :: 0 <= k < |ps| ==> ps[k] < |items|
      reads this`items, this`containers
      ensures |r| == |ps|
      ensures forall k :: 0 <= k < |ps| ==> r[k] == items[ps[k]].name
    {
      if ps == [] then [] else PathNames(ps[..|ps| - 1]) + [items[ps[|ps| - 1]].name]
    }

    ghost predicate NamedChain(ps: seq<ItemId>)
      reads this`items, this`containers
    {
      forall k :: 0 <= k < |ps| ==> ps[k] < |items| && items[ps[k]].name != ""
    }

    /**
     * Without `until`, or with `until` at position `k` of the chain, the
     * namespace is the names strictly between that point and the item,
     * joined by `\` (names being non-empty).
     */
    lemma {:induction false} NamespaceIsJoinedPath(i: ItemId, ps: seq<ItemId>, k: int, until: Option<ItemId>)
      requires NamedBelow(i, ps, k, until)
      ensures Namespace(i, until) == Success(Join(PathNames(ps[k + 1..|ps| - 1]), "\\"))
      decreases i
    {
      var up := Up(i).value;
      if up.None? || until == up {
        NamespaceAtTop(i, ps, k, until);
      } else {
        var p, qs := ParentBelow(i, ps, k, until);
        NamespaceIsJoinedPath(p, qs, k, until);
        NamespaceJoinStep(i, p, qs[k + 1..|qs| - 1], until);
      }
    }

    /**
     * `ps` is the path of `i`, all its names are non-empty, and `until` is
     * the item at index `k` of it (`None` for `k == -1`), above `i`.
     */
    ghost predicate NamedBelow(i: ItemId, ps: seq<ItemId>, k: int, until: Option<ItemId>)
      reads this`items, this`containers
    {
      Valid() && i < |items| && Path(i) == Success(ps) && NamedChain(ps) &&
      -1 <= k < |ps| - 1 && until == (if k < 0 then None else Some(ps[k]))
    }

    /** Below a parent other than `until`, the parent's path has `until` at the same index. */
    lemma ParentBelow(i: ItemId, ps: seq<ItemId>, k: int, until: Option<ItemId>) returns (p: ItemId, qs: seq<ItemId>)
      requires NamedBelow(i, ps, k, until) && Up(i).value.Some? && until != Up(i).value
      ensures Up(i) == Success(Some(p)) && p < i && NamedBelow(p, qs, k, until)
      ensures NamedChain(qs[k + 1..|qs| - 1]) && until != Some(p)
      ensures ps[k + 1..|ps| - 1] == qs[k + 1..|qs| - 1] + [p]
    {
      p := Up(i).value.value;
      qs := Path(p).value;
      assert ps == qs + [i];
      ChainShorter(ps, qs, i, p, k);
      NamedChainSlice(ps, 0, |qs|);
      assert ps[0..|qs|] == qs;
      NamedChainSlice(qs, k + 1, |qs| - 1);
    }

    /** The base cases of `NamespaceIsJoinedPath`: at the root level, or just below `until`, the namespace is empty. */
    lemma NamespaceAtTop(i: ItemId, ps: seq<ItemId>, k: int, until: Option<ItemId>)
      requires Valid() && i < |items| && Path(i) == Success(ps)
      requires -1 <= k < |ps| - 1
      requires until == if k < 0 then None else Some(ps[k])
      requires Up(i).value.None? || until == Up(i).value
      ensures Namespace(i, until) == Success(Join(PathNames(ps[k + 1..|ps| - 1]), "\\"))
    {
      if Up(i).value.Some? {
        var p := Up(i).value.value;
        assert ps == Path(p).value + [i];
        assert ps[|ps| - 2] == p;
      }
      assert ps[k + 1..|ps| - 1] == [];
      assert PathNames([]) == [];
    }

    /** The inductive step of `NamespaceIsJoinedPath`: from the parent's namespace to the item's. */
    lemma NamespaceJoinStep(i: ItemId, p: ItemId, xs: seq<ItemId>, until: Option<ItemId>)
      requires Valid() && i < |items| && p < |items| && Up(i) == Success(Some(p)) && until != Some(p)
      requires NamedChain(xs)
      requires Namespace(p, until) == Success(Join(PathNames(xs), "\\"))
      ensures Namespace(i, until) == Success(Join(PathNames(xs + [p]), "\\"))
    {
      JoinNamesSnoc(xs, p);
      NamespaceStep(i, p, until);
    }

    /** One level of `getNamespace` below a parent that is not `until`. */
    lemma NamespaceStep(i: ItemId, p: ItemId, until: Option<ItemId>)
      requires Valid() && i < |items| && Up(i) == Success(Some(p)) && until != Some(p)
      requires Namespace(p, until).Success?
      ensures Namespace(i, until) == Success(Qualify(Namespace(p, until).value, items[p].name))
    {
    }

    /** Below a point other than the last parent, a chain one item longer adds that parent to the names in between. */
    static lemma ChainShorter(ps: seq<ItemId>, qs: seq<ItemId>, i: ItemId, p: ItemId, k: int)
      requires ps == qs + [i] && qs != [] && qs[|qs| - 1] == p
      requires -1 <= k < |ps| - 1 && (k < 0 || ps[k] != p)
      ensures k < |qs| - 1
      ensures k >= 0 ==> qs[k] == ps[k]
      ensures ps[k + 1..|ps| - 1] == qs[k + 1..|qs| - 1] + [p]
    {
      assert ps[|qs| - 1] == p;
      assert ps[k + 1..|ps| - 1] == qs[k + 1..];
      assert qs[k + 1..] == qs[k + 1..|qs| - 1] + [p];
    }

    lemma NamedChainSlice(ps: seq<ItemId>, a: nat, b: nat)
      requires NamedChain(ps) && a <= b <= |ps|
      ensures NamedChain(ps[a..b])
    {
      forall j | 0 <= j < b - a
        ensures ps[a..b][j] < |items| && items[ps[a..b][j]].name != ""
      {
        assert ps[a..b][j] == ps[a + j];
      }
    }

    /** Joining the names of a chain one item longer qualifies that item's name with the shorter join. */
    lemma JoinNamesSnoc(xs: seq<ItemId>, p: ItemId)
      requires NamedChain(xs) && p < |items|
      ensures Join(PathNames(xs + [p]), "\\") == Qualify(Join(PathNames(xs), "\\"), items[p].name)
    {
      assert (xs + [p])[..|xs|] == xs;
      assert PathNames(xs + [p]) == PathNames(xs) + [items[p].name];
      if xs == [] {
        assert PathNames(xs + [p]) == [items[p].name];
      } else {
        JoinSnoc(PathNames(xs), items[p].name, "\\");
        JoinOfNamesNotEmpty(xs);
      }
    }

    lemma JoinOfNamesNotEmpty(ps: seq<ItemId>)
      requires ps != [] && NamedChain(ps)
      ensures Join(PathNames(ps), "\\") != ""
    {
      var ns := PathNames(ps);
      assert ns[0] == items[ps[0]].name;
      if |ns| > 1 {
        assert Join(ns, "\\") == ns[0] + "\\" + Join(ns[1..], "\\");
      }
    }

    /** The fully qualified name without alias is the chain's names joined by `\\`. */
    lemma FullNameIsJoinedPath(i: ItemId)
      requires Valid() && i < |items| && Path(i).Success? && NamedChain(Path(i).value)
      ensures FullName(i, false, None) == Success(Join(PathNames(Path(i).value), "\\"))
    {
      var ps := Path(i).value;
      NamespaceIsJoinedPath(i, ps, -1, None);
      var front := PathNames(ps[..|ps| - 1]);
      assert PathNames(ps) == front + [items[i].name] by {
        assert ps == ps[..|ps| - 1] + [i];
      }
      if front == [] {
        assert PathNames(ps) == [items[i].name];
      } else {
        JoinSnoc(front, items[i].name, "\\");
        JoinOfNamesNotEmpty(ps[..|ps| - 1]);
      }
    }

    /** Asking for the alias appends ` as ` and the alias, when there is one, to the fully qualified name. */
    lemma FullNameWithAlias(i: ItemId, until: Option<ItemId>)
      requires Valid() && i < |items| && FullName(i, false, until).Success?
      ensures FullName(i, true, until) ==
        Success(FullName(i, false, until).value + if items[i].alias.Some? then " as " + items[i].alias.value else "")
    {
      var ns := Namespace(i, until).value;
      assert FullName(i, false, until) == Success(Qualify(ns, Name(i, false)));
      assert FullName(i, true, until) == Success(Qualify(ns, Name(i, true)));
      var plain := Qualify(ns, Name(i, false));
      if items[i].alias.Some? {
        var x := " as " + items[i].alias.value;
        assert Name(i, true) == Name(i, false) + x;
        if ns != "" {
          assert ns + "\\" + (Name(i, false) + x) == (ns + "\\" + Name(i, false)) + x;
        }
        assert Qualify(ns, Name(i, true)) == plain + x;
      } else {
        assert Name(i, true) == Name(i, false);
        assert plain + "" == plain;
      }
    }

    /** Once every item has been added somewhere, every chain reaches the root level and every depth is defined. */
    lemma {:induction false} PlacedHasPath(i: ItemId)
      requires Valid() && Placed() && i < |items|
      ensures Path(i).Success? && ItemDepth(i).Success?
      decreases i
    {
      match Up(i)
      case Success(None) =>
      case Success(Some(p)) =>
        PlacedHasPath(p);
      DepthIsPathLength(i);
    }

    /** Once every item has been added somewhere, `getNamespace` and `getFullyQualifiedName` do not throw. */
    lemma {:induction false} PlacedHasNames(i: ItemId, until: Option<ItemId>)
      requires Valid() && Placed() && i < |items|
      ensures Namespace(i, until).Success?
      ensures FullName(i, true, until).Success? && FullName(i, false, until).Success?
      decreases i
    {
      match Up(i)
      case Success(None) =>
      case Success(Some(p)) =>
        if until != Some(p) {
          PlacedHasNames(p, until);
        }
    }

    /** A container's entries found earlier stay in its renderable list. */
    lemma {:induction false} RenderableOfGrows(c: ContainerId, ms: seq<Member>, k: nat, g: set<ItemId>)
      requires Valid() && c < |containers| && k <= |ms|
      requires forall m :: m in ms ==> m in containers[c].members
      ensures forall y :: y in RenderableOf(c, ms[..k], g) ==> y in RenderableOf(c, ms, g)
      decreases |ms|
    {
      if k < |ms| {
        var front := ms[..|ms| - 1];
        assert front[..k] == ms[..k];
        RenderableOfGrows(c, front, k, g);
      } else {
        assert ms[..k] == ms;
      }
    }

    /** What one entry contributes: itself when renderable, and its children's renderable items when it has any. */
    lemma RenderableOfEntry(c: ContainerId, ms: seq<Member>, k: nat, g: set<ItemId>)
      requires Valid() && c < |containers| && k < |ms|
      requires forall m :: m in ms ==> m in containers[c].members
      ensures ms[k].id < |items|
      ensures IsRenderable(ms[k].id, g) ==> ms[k].id in RenderableOf(c, ms, g)
      ensures HasChildren(ms[k].id) ==> forall y :: y in Renderable(Children(ms[k].id), g) ==> y in RenderableOf(c, ms, g)
    {
      assert ContainerOkIn(items, containers, c) && ms[k] in containers[c].members;
      RenderableOfGrows(c, ms, k + 1, g);
      var upto := ms[..k + 1];
      assert upto[..k] == ms[..k] && upto[k] == ms[k];
    }

    /** The item after `ps[j]` on a chain sits in the container of `ps[j]`'s children. */
    lemma {:induction false} ChildOnChain(x: ItemId, ps: seq<ItemId>, j: nat)
      requires Valid() && x < |items| && Path(x) == Success(ps) && j + 1 < |ps|
      ensures ps[j] < |items| && ps[j + 1] < |items|
      ensures items[ps[j + 1]].container == Some(Children(ps[j]))
    {
      var q, p := ps[j + 1], ps[j];
      PathPrefix(x, j + 1);
      PathParent(q, ps[..j + 2]);
      assert ps[..j + 2][j] == p;
    }

    /** The item before `q` on its path is the parent of the container `q` sits in. */
    lemma PathParent(q: ItemId, qs: seq<ItemId>)
      requires Valid() && q < |items| && Path(q) == Success(qs) && |qs| >= 2
      ensures qs[|qs| - 2] < |items| && items[q].container == Some(Children(qs[|qs| - 2]))
    {
      assert ItemOkIn(items, containers, q);
      var d := items[q].container.value;
      assert ContainerOkIn(items, containers, d);
      var p := containers[d].parent.value;
      assert qs == Path(p).value + [q];
    }

    /** An item that points to a container is one of its entries. */
    lemma EntryIndex(q: ItemId, c: ContainerId) returns (k: nat)
      requires Valid() && Consistent() && q < |items| && items[q].container == Some(c)
      ensures c < |containers| && k < |containers[c].members| && containers[c].members[k].id == q
    {
      assert ItemOkIn(items, containers, q);
      assert q in Ids(containers[c].members);
      var ids := Ids(containers[c].members);
      k :| 0 <= k < |ids| && ids[k] == q;
    }

    /**
     * `getRenderableItems` misses nothing: a renderable item is in the
     * renderable list of the children of every item above it.
     */
    lemma {:induction false} RenderableBelow(ps: seq<ItemId>, j: nat, g: set<ItemId>)
      requires Chain(ps) && j < |ps| - 1 && IsRenderable(ps[|ps| - 1], g)
      ensures ps[j] < |items| && ps[|ps| - 1] in Renderable(Children(ps[j]), g)
      decreases |ps| - j
    {
      var x := ps[|ps| - 1];
      var k := ChainStep(ps, j);
      var c := Children(ps[j]);
      if j + 1 < |ps| - 1 {
        RenderableBelow(ps, j + 1, g);
        var _ := ChainStep(ps, j + 1);
        EntryChildrenIn(c, k, x, g);
      } else {
        EntryIn(c, k, g);
      }
    }

    /** A renderable entry is in the renderable list of its container. */
    lemma EntryIn(c: ContainerId, k: nat, g: set<ItemId>)
      requires Valid() && c < |containers| && k < |containers[c].members|
      requires containers[c].members[k].id < |items| && IsRenderable(containers[c].members[k].id, g)
      ensures containers[c].members[k].id in Renderable(c, g)
    {
      RenderableOfEntry(c, containers[c].members, k, g);
    }

    /** The renderable items below an entry with children are in the renderable list of its container. */
    lemma EntryChildrenIn(c: ContainerId, k: nat, x: ItemId, g: set<ItemId>)
      requires Valid() && c < |containers| && k < |containers[c].members|
      requires containers[c].members[k].id < |items| && HasChildren(containers[c].members[k].id)
      requires x in Renderable(Children(containers[c].members[k].id), g)
      ensures x in Renderable(c, g)
    {
      RenderableOfEntry(c, containers[c].members, k, g);
    }

    /** `ps` is the path of its last item, in a valid and consistent tree. */
    ghost predicate Chain(ps: seq<ItemId>)
      reads this`items, this`containers
    {
      Valid() && Consistent() && |ps| >= 2 && ps[|ps| - 1] < |items| && Path(ps[|ps| - 1]) == Success(ps)
    }

    /** An item in the middle of a chain has children, and the next item of the chain is entry `k` of them. */
    lemma ChainStep(ps: seq<ItemId>, j: nat) returns (k: nat)
      requires Chain(ps) && j + 1 < |ps|
      ensures ps[j] < |items| && Children(ps[j]) < |containers| && HasChildren(ps[j])
      ensures k < |containers[Children(ps[j])].members| && containers[Children(ps[j])].members[k].id == ps[j + 1]
    {
      ChildOnChain(ps[|ps| - 1], ps, j);
      k := EntryIndex(ps[j + 1], Children(ps[j]));
    }

    /** So the item `n >= 1` levels up from a renderable item has it among its children's renderable items. */
    lemma RenderableUnderParent(x: ItemId, n: int, g: set<ItemId>)
      requires Valid() && Consistent() && x < |items| && Path(x).Success? && n >= 1 && IsRenderable(x, g)
      requires Parent(x, n).Success? && Parent(x, n).value.Some?
      ensures Parent(x, n).value.value < |items| && x in Renderable(Children(Parent(x, n).value.value), g)
    {
      var ps := Path(x).value;
      ParentOnPath(x, n);
      var j := |ps| - 1 - n;
      assert Parent(x, n).value.value == ps[j] && ps[|ps| - 1] == x;
      RenderableBelow(ps, j, g);
    }

    /** `y` sits somewhere in the subtree of `p`: `p` is on the chain of `y`, above it. */
    ghost predicate Below(y: ItemId, p: ItemId)
      reads this`items, this`containers
    {
      Valid() && y < |items| && p < |items| && Path(y).Success? && Path(p).Success? &&
      |Path(p).value| < |Path(y).value| && Path(y).value[|Path(p).value| - 1] == p
    }

    /** Every item has a non-empty name. */
    ghost predicate Named()
      reads this`items
    {
      forall i :: 0 <= i < |items| ==> items[i].name != ""
    }

    /** The chain of an item below `p` begins with the chain of `p`. */
    lemma BelowExtendsPath(y: ItemId, p: ItemId)
      requires Below(y, p)
      ensures Path(y).value[..|Path(p).value|] == Path(p).value
    {
      var ys, ps := Path(y).value, Path(p).value;
      assert Path(p) == Success(ys[..|ps|]) by {
        PathPrefix(y, |ps| - 1);
      }
    }

    /** An entry of the children of `p` is below `p`. */
    lemma ChildBelow(i: ItemId, p: ItemId)
      requires Valid() && Placed() && i < |items| && p < |items| && items[i].container == Some(Children(p))
      ensures Below(i, p)
    {
      PlacedHasPath(i);
      PlacedHasPath(p);
      assert Up(i) == Success(Some(p));
    }

    lemma BelowTransitive(y: ItemId, i: ItemId, p: ItemId)
      requires Below(y, i) && Below(i, p)
      ensures Below(y, p)
    {
      BelowExtendsPath(y, i);
      var ys, qs := Path(y).value, Path(i).value;
      assert ys[|Path(p).value| - 1] == ys[..|qs|][|Path(p).value| - 1];
    }

    /** `getRenderableItems` of the children of `p` only finds items below `p`. */
    lemma RenderableIsBelow(p: ItemId, g: set<ItemId>)
      requires Valid() && Consistent() && Placed() && p < |items|
      ensures forall y :: y in Renderable(Children(p), g) ==> Below(y, p)
      decreases Rank(Children(p)), 2
    {
      RenderableOfIsBelow(p, containers[Children(p)].members, g);
    }

    lemma {:induction false} RenderableOfIsBelow(p: ItemId, ms: seq<Member>, g: set<ItemId>)
      requires Valid() && Consistent() && Placed() && p < |items|
      requires forall m :: m in ms ==> m in containers[Children(p)].members
      ensures forall y :: y in RenderableOf(Children(p), ms, g) ==> Below(y, p)
      decreases Rank(Children(p)), 1, |ms|
    {
      var c := Children(p);
      if ms != [] {
        assert ContainerOkIn(items, containers, c) && ms[|ms| - 1] in containers[c].members;
        RenderableOfIsBelow(p, ms[..|ms| - 1], g);
        var i := ms[|ms| - 1].id;
        ChildBelow(i, p);
        if ItemCountToLast(i) > 0 && HasChildren(i) {
          RenderableIsBelow(i, g);
          forall y | y in Renderable(Children(i), g)
            ensures Below(y, p)
          {
            BelowTransitive(y, i, p);
          }
        }
      }
    }

    /** Below `p`, the name relative to `p` joins the names on the chain after `p`. */
    lemma RelativeNameIsJoinedPath(y: ItemId, p: ItemId)
      requires Below(y, p) && Named()
      ensures var ys := Path(y).value;
        FullName(y, false, Some(p)) == Success(Join(PathNames(ys[|Path(p).value|..]), "\\"))
    {
      var ys := Path(y).value;
      var n := |Path(p).value|;
      BelowExtendsPath(y, p);
      assert ys[n - 1] == p;
      assert NamedChain(ys);
      NamespaceIsJoinedPath(y, ys, n - 1, Some(p));
      var mid := ys[n..|ys| - 1];
      NamedChainSlice(ys, n, |ys| - 1);
      JoinNamesSnoc(mid, y);
      SliceSnoc(ys, n);
    }

    static lemma SliceSnoc(ys: seq<ItemId>, n: nat)
      requires n < |ys|
      ensures ys[n..] == ys[n..|ys| - 1] + [ys[|ys| - 1]]
    {
    }

    lemma PathNamesAppend(a: seq<ItemId>, b: seq<ItemId>)
      requires forall k :: 0 <= k < |a| ==> a[k] < |items|
      requires forall k :: 0 <= k < |b| ==> b[k] < |items|
      ensures PathNames(a + b) == PathNames(a) + PathNames(b)
    {
      assert forall k :: 0 <= k < |a + b| ==> (a + b)[k] < |items|;
    }

    /**
     * Below `p`, the fully qualified name (with its alias) is that of `p`, a
     * `\`, and the name relative to `p`.
     */
    lemma RelativeFullName(y: ItemId, p: ItemId)
      requires Below(y, p) && Named()
      ensures FullName(y, true, None).Success? && FullName(p, false, None).Success? && FullName(y, true, Some(p)).Success?
      ensures FullName(y, true, None).value == FullName(p, false, None).value + "\\" + FullName(y, true, Some(p)).value
    {
      RelativeFullNameWithoutAlias(y, p);
      FullNameWithAlias(y, None);
      FullNameWithAlias(y, Some(p));
      var x := if items[y].alias.Some? then " as " + items[y].alias.value else "";
      SuffixAfterQualify(FullName(y, false, None).value, FullName(p, false, None).value, FullName(y, false, Some(p)).value, x);
    }

    lemma RelativeFullNameWithoutAlias(y: ItemId, p: ItemId)
      requires Below(y, p) && Named()
      ensures FullName(y, false, None).Success? && FullName(p, false, None).Success? && FullName(y, false, Some(p)).Success?
      ensures FullName(y, false, None).value == FullName(p, false, None).value + "\\" + FullName(y, false, Some(p)).value
    {
      RelativeNameIsJoinedPath(y, p);
      BelowExtendsPath(y, p);
      NamedPath(y);
      NamedPath(p);
      FullNameIsJoinedPath(y);
      FullNameIsJoinedPath(p);
      JoinedPathSplits(Path(y).value, Path(p).value);
    }

    lemma NamedPath(i: ItemId)
      requires Valid() && Named() && i < |items| && Path(i).Success?
      ensures NamedChain(Path(i).value)
    {
    }

    /** The names of a chain, joined, split where a shorter chain it begins with ends. */
    lemma JoinedPathSplits(ys: seq<ItemId>, ps: seq<ItemId>)
      requires NamedChain(ys) && 0 < |ps| < |ys| && ys[..|ps|] == ps
      ensures Join(PathNames(ys), "\\") == Join(PathNames(ps), "\\") + "\\" + Join(PathNames(ys[|ps|..]), "\\")
    {
      PrefixThenRest(ys, ps);
      PathNamesAppend(ps, ys[|ps|..]);
      JoinAppend(PathNames(ps), PathNames(ys[|ps|..]), "\\");
    }

    static lemma PrefixThenRest(ys: seq<ItemId>, ps: seq<ItemId>)
      requires |ps| <= |ys| && ys[..|ps|] == ps
      ensures ys == ps + ys[|ps|..]
    {
    }

    static lemma SuffixAfterQualify(full: String, ns: String, rel: String, x: String)
      requires full == ns + "\\" + rel
      ensures full + x == ns + "\\" + (rel + x)
    {
    }

    /** `getRenderableItems` lists no item twice. */
    lemma RenderableUnique(c: ContainerId, g: set<ItemId>)
      requires Valid() && c < |containers|
      ensures Unique(Renderable(c, g))
    {
      RenderableOfUnique(c, containers[c].members, g);
    }

    lemma {:induction false} RenderableOfUnique(c: ContainerId, ms: seq<Member>, g: set<ItemId>)
      requires Valid() && c < |containers|
      requires forall m :: m in ms ==> m in containers[c].members
      ensures Unique(RenderableOf(c, ms, g))
      decreases |ms|
    {
      if ms != [] {
        assert ContainerOkIn(items, containers, c) && ms[|ms| - 1] in containers[c].members;
        RenderableOfUnique(c, ms[..|ms| - 1], g);
        var acc := RenderableOf(c, ms[..|ms| - 1], g);
        var i := ms[|ms| - 1].id;
        UnionUnique(acc, [i]);
        var acc' := if IsRenderable(i, g) then Union(acc, [i]) else acc;
        if ItemCountToLast(i) > 0 && HasChildren(i) {
          UnionUnique(acc', Renderable(Children(i), g));
        }
      }
    }

    /** Entries with distinct names are distinct items, so `getSiblings` lists no item twice. */
    lemma SiblingsUnique(c: ContainerId)
      requires Valid() && c < |containers|
      ensures Unique(Siblings(c))
    {
      assert ContainerOkIn(items, containers, c);
      SiblingsOfUnique(containers[c].members);
    }

    lemma {:induction false} SiblingsOfUnique(ms: seq<Member>)
      requires Valid() && DistinctKeys(ms)
      requires forall m :: m in ms ==> m.id < |items| && m.key == items[m.id].name
      ensures Unique(SiblingsOf(ms))
      decreases |ms|
    {
      if ms != [] {
        var front, m := ms[..|ms| - 1], ms[|ms| - 1];
        SiblingsOfUnique(front);
      }
    }

    /** A sibling of a container is an entry of it. */
    lemma SiblingIsEntry(c: ContainerId, s: ItemId)
      requires Valid() && Consistent() && c < |containers| && s in Siblings(c)
      ensures s < |items| && items[s].container == Some(c) && IsSibling(s)
    {
      assert ContainerOkIn(items, containers, c);
      var ids := Ids(containers[c].members);
      var j :| 0 <= j < |ids| && ids[j] == s;
      assert containers[c].members[j] in containers[c].members;
    }

    /** An entry of a container that is imported or a branch end is one of its siblings. */
    lemma EntryIsSibling(c: ContainerId, s: ItemId)
      requires Valid() && Consistent() && s < |items| && items[s].container == Some(c) && IsSibling(s)
      ensures c < |containers| && s in Siblings(c)
    {
      assert ItemOkIn(items, containers, s);
      assert ContainerOkIn(items, containers, c);
    }

    /**
     * Two items in the container of `q`'s children share their namespace,
     * and the fully qualified name of one is that namespace, a `\` and its
     * name (the grouping of siblings under `getNamespace()`).
     */
    lemma SiblingFullName(x: ItemId, s: ItemId, q: ItemId)
      requires Valid() && Placed() && Named() && x < |items| && s < |items|
      requires Up(x) == Success(Some(q)) && Up(s) == Success(Some(q))
      ensures Namespace(x, None).Success?
      ensures FullName(s, true, None) == Success(Namespace(x, None).value + "\\" + Name(s, true))
    {
      PlacedHasNames(q, None);
      assert Namespace(s, None) == Namespace(x, None);
    }

    /** `i` belongs to the tree of the root-level container `root`: its chain starts with an entry of `root`. */
    ghost predicate InSubtree(root: ContainerId, i: ItemId)
      reads this`items, this`containers
    {
      Valid() && i < |items| && Path(i).Success? && items[Path(i).value[0]].container == Some(root)
    }

    /** `getRenderableItems` of a root-level container finds only items of its tree. */
    lemma RenderableInSubtree(root: ContainerId, g: set<ItemId>)
      requires Valid() && Consistent() && Placed() && root < |containers| && containers[root].parent.None?
      ensures forall y :: y in Renderable(root, g) ==> InSubtree(root, y)
    {
      RenderableOfInSubtree(root, containers[root].members, g);
    }

    lemma {:induction false} RenderableOfInSubtree(root: ContainerId, ms: seq<Member>, g: set<ItemId>)
      requires Valid() && Consistent() && Placed() && root < |containers| && containers[root].parent.None?
      requires forall m :: m in ms ==> m in containers[root].members
      ensures forall y :: y in RenderableOf(root, ms, g) ==> InSubtree(root, y)
      decreases |ms|
    {
      if ms != [] {
        assert ContainerOkIn(items, containers, root) && ms[|ms| - 1] in containers[root].members;
        RenderableOfInSubtree(root, ms[..|ms| - 1], g);
        var i := ms[|ms| - 1].id;
        assert items[i].container == Some(root);
        assert Path(i) == Success([i]);
        if ItemCountToLast(i) > 0 && HasChildren(i) {
          RenderableIsBelow(i, g);
        }
      }
    }

    /** And it finds every renderable item of its tree. */
    lemma SubtreeRenderable(root: ContainerId, y: ItemId, g: set<ItemId>)
      requires Valid() && Consistent() && root < |containers| && InSubtree(root, y) && IsRenderable(y, g)
      ensures y in Renderable(root, g)
    {
      var ps := Path(y).value;
      var k := EntryIndex(ps[0], root);
      if |ps| == 1 {
        EntryIn(root, k, g);
      } else {
        RenderableBelow(ps, 0, g);
        var _ := ChainStep(ps, 0);
        EntryChildrenIn(root, k, y, g);
      }
    }

    /** The items above an item of a tree, and the items below those, belong to the same tree. */
    lemma AncestorInSubtree(root: ContainerId, x: ItemId, n: int)
      requires InSubtree(root, x) && Parent(x, n).Success? && Parent(x, n).value.Some?
      ensures InSubtree(root, Parent(x, n).value.value)
    {
      ParentOnPath(x, n);
      var ps := Path(x).value;
      var j := if n <= 0 then |ps| - 1 else |ps| - 1 - n;
      PathPrefix(x, j);
    }

    lemma BelowInSubtree(root: ContainerId, y: ItemId, p: ItemId)
      requires InSubtree(root, p) && Below(y, p)
      ensures InSubtree(root, y)
    {
      BelowExtendsPath(y, p);
      assert Path(y).value[0] == Path(y).value[..|Path(p).value|][0];
    }

    /** Two items in the same container, one of a tree, both belong to it. */
    lemma NeighbourInSubtree(root: ContainerId, x: ItemId, s: ItemId)
      requires InSubtree(root, x) && Placed() && s < |items| && items[s].container == items[x].container
      ensures InSubtree(root, s)
    {
      PlacedHasPath(s);
      match Up(x)
      case Success(None) =>
      case Success(Some(q)) =>
        assert Path(x).value[0] == Path(q).value[0] == Path(s).value[0];
    }

    // -------------------------------------------------------------------------
    // The loops of the source, proved against the reads above

    /** `getSiblings`: one pass over the entries, keeping the siblings. */
    method GetSiblings(c: ContainerId) returns (r: seq<ItemId>)
      requires Valid() && c < |containers|
      ensures r == Siblings(c)
    {
      assert ContainerOkIn(items, containers, c);
      var ms := containers[c].members;
      r := [];
      for k := 0 to |ms|
        invariant r == SiblingsOf(ms[..k])
      {
        assert ms[..k + 1][..k] == ms[..k];
        var sibling := ms[k].id;
        if !items[sibling].use && !IsLast(sibling) {
          continue;
        }
        r := r + [sibling];
      }
      assert ms[..|ms|] == ms;
    }

    /** `getParent`: climbs one container at a time while levels remain and an item is in hand. */
    method GetParent(i: ItemId, n: int) returns (r: Result<Option<ItemId>, TreeError>)
      requires Valid() && i < |items|
      ensures r == Parent(i, n)
    {
      var item: Option<ItemId> := Some(i);
      var depth := n;
      while depth > 0 && item.Some?
        invariant item.Some? ==> item.value < |items| && Parent(i, n) == Parent(item.value, depth)
        invariant item.None? ==> Parent(i, n) == Success(None)
        decreases depth
      {
        var up := Up(item.value);
        if up.Failure? {
          return Failure(up.error);
        }
        item := up.value;
        depth := depth - 1;
      }
      return Success(item);
    }

    /** `ItemContainer::getCountToLast`: the running maximum over the entries, plus one. */
    method GetCountToLast(c: ContainerId) returns (n: nat)
      requires Valid() && c < |containers|
      ensures n == ContainerCountToLast(c)
    {
      var ms := containers[c].members;
      var maxDepth := 0;
      for k := 0 to |ms|
        invariant maxDepth == MaxCount(c, ms[..k])
      {
        assert ms[..k + 1][..k] == ms[..k];
        assert ContainerOkIn(items, containers, c) && ms[k] in containers[c].members;
        var newDepth := ItemCountToLast(ms[k].id);
        if newDepth <= maxDepth {
          continue;
        }
        maxDepth := newDepth;
      }
      assert ms[..|ms|] == ms;
      n := maxDepth + 1;
    }

    /** The members of `c` before entry `k` are members of `c`, and entry `k` is an item. */
    lemma MembersPrefix(c: ContainerId, ms: seq<Member>, k: nat)
      requires Valid() && c < |containers| && ms == containers[c].members && k < |ms|
      ensures ms[k].id < |items| && forall m :: m in ms[..k + 1] ==> m in containers[c].members
    {
      assert ContainerOkIn(items, containers, c) && ms[k] in containers[c].members;
    }

    /** One more entry of `RenderableOf`: the entry itself if renderable, then its subtree's. */
    lemma RenderableOfStep(c: ContainerId, ms: seq<Member>, k: nat, g: set<ItemId>, acc: seq<ItemId>, acc': seq<ItemId>)
      requires EntryAt(c, ms, k)
      requires acc == RenderableOf(c, ms[..k], g)
      requires acc' == if IsRenderable(ms[k].id, g) then Union(acc, [ms[k].id]) else acc
      ensures RenderableOf(c, ms[..k + 1], g) ==
        if ItemCountToLast(ms[k].id) > 0 && HasChildren(ms[k].id) then Union(acc', Renderable(Children(ms[k].id), g))
        else acc'
    {
      MembersPrefix(c, ms, k);
      var prefix := ms[..k + 1];
      assert prefix[..|prefix| - 1] == ms[..k] && prefix[|prefix| - 1] == ms[k];
    }

    /** The container under an entry of `c` ranks lower than `c`. */
    lemma ChildRanksLower(c: ContainerId, ms: seq<Member>, k: nat)
      requires EntryAt(c, ms, k)
      ensures Rank(Children(ms[k].id)) < Rank(c)
    {
      assert ContainerOkIn(items, containers, c) && ms[k] in containers[c].members;
    }

    /** Entry `k` of the members `ms` of container `c`, in a valid tree. */
    ghost predicate EntryAt(c: ContainerId, ms: seq<Member>, k: nat)
      reads this`items, this`containers
    {
      Valid() && c < |containers| && ms == containers[c].members && k < |ms| && ms[k].id < |items|
    }

    /** `getRenderableItems`, reading the items' current `grouped` flags. */
    method GetRenderableItems(c: ContainerId) returns (r: seq<ItemId>)
      requires Valid() && c < |containers|
      ensures r == Renderable(c, grouped)
      decreases Rank(c), 1
    {
      assert ContainerOkIn(items, containers, c);
      var ms := containers[c].members;
      r := [];
      for k := 0 to |ms|
        invariant r == RenderableOf(c, ms[..k], grouped)
      {
        MembersPrefix(c, ms, k);
        r := AddRenderableEntry(c, ms, k, r);
      }
      assert ms[..|ms|] == ms;
    }

    /** One round of the `getRenderableItems` loop: entry `k` if renderable, then the renderable items below it. */
    method AddRenderableEntry(c: ContainerId, ms: seq<Member>, k: nat, acc: seq<ItemId>) returns (r: seq<ItemId>)
      requires EntryAt(c, ms, k) && acc == RenderableOf(c, ms[..k], grouped)
      ensures r == RenderableOf(c, ms[..k + 1], grouped)
      decreases Rank(c), 0
    {
      var item := ms[k].id;
      r := acc;
      if (items[item].use || IsLast(item)) && item !in grouped {
        r := Union(r, [item]);
      }
      ghost var acc' := r;
      if ItemCountToLast(item) > 0 && HasChildren(item) {
        ChildRanksLower(c, ms, k);
        var sub := GetRenderableItems(Children(item));
        r := Union(r, sub);
      }
      RenderableOfStep(c, ms, k, grouped, acc, acc');
    }

    /**
     * `add`: the item now points to the container, and the container holds it
     * under its name. The item must be newer than the container's parent
     * item, which keeps the tree free of cycles.
     */
    method Add(c: ContainerId, i: ItemId)
      requires Valid() && c < |containers| && i < |items|
      requires containers[c].parent.Some? ==> containers[c].parent.value < i
      modifies this
      ensures items == old(items)[i := old(items)[i].(container := Some(c))]
      ensures containers == old(containers)[c := ContainerRec(old(containers)[c].parent, PutMember(old(containers)[c].members, old(items)[i].name, i))]
      ensures grouped == old(grouped)
      ensures Find(c, items[i].name) == Some(i)
      ensures Valid()
      ensures old(Placed()) ==> Placed()
      ensures old(Consistent()) && old(items[i].container).None? && old(Find(c, items[i].name)).None? ==> Consistent()
    {
      var ct := containers[c];
      var name := items[i].name;
      var items' := items[i := items[i].(container := Some(c))];
      var cs' := containers[c := ContainerRec(ct.parent, PutMember(ct.members, name, i))];
      AddPreserves(items, containers, c, i, items', cs');
      items := items';
      containers := cs';
    }

    /** `findOrCreate`: the item of that name, or a new item added under it. */
    method FindOrCreate(c: ContainerId, name: String) returns (i: ItemId)
      requires Valid() && c < |containers|
      modifies this
      ensures Valid() && c < |containers|
      ensures Find(c, name) == Some(i) && i < |items| && items[i].name == name
      ensures old(Find(c, name)).Some? ==>
        i == old(Find(c, name)).value && items == old(items) && containers == old(containers)
      ensures old(Find(c, name)).None? ==>
        i == |old(items)| &&
        items == old(items) + [ItemRec(name, false, None, Some(c), |old(containers)|)] &&
        containers == old(containers)[c := ContainerRec(old(containers)[c].parent, old(containers)[c].members + [Member(name, i)])] +
                      [ContainerRec(Some(i), [])]
      ensures grouped == old(grouped)
      ensures old(Consistent()) ==> Consistent()
      ensures old(Placed()) ==> Placed()
    {
      var found := Find(c, name);
      if found.Some? {
        i := found.value;
        assert ContainerOkIn(items, containers, c);
        return;
      }
      i := NewItem(name, false, None);
      assert ContainerOkIn(items, containers, c);
      Add(c, i);
    }
  }
}
