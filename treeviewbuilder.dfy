/** The builders of `vois.vuetify.treeview`: `createTreeviewFromList`, which
  * turns separator-joined paths into one tree of node dicts with a nested
  * `addNode`, and `createTreeviewFromDF2Columns`, which builds a tree from
  * (parent, child) rows with the module-level `addNode`, each child one
  * level below the dict of its parent's fullname.
  *
  * Both keep every created dict in a registry keyed by name, give each new
  * dict the next id, and append it to its parent's 'children' list. In the
  * source the parent's list holds the very dicts of the registry; here the
  * list holds registry keys (`Ref`) and the tree of values is read out of
  * the registry by `Materialize`. */
module TreeviewBuilder {
  import opened Wrappers
  import opened PyStrings
  import opened TreeNodes
  import opened Paths
  import TreeviewIndex

  // ---------------------------------------------------------------- the registry

  /** One element of a 'children' list: a dict of the registry, or the
    * repeated-parent dict, which the registry does not hold. */
  datatype Entry = Ref(key: string) | Copy(node: Node)

  /** A registry dict: the fields of `Node`, children given as entries. */
  datatype Elem = Elem(id: int, name: string, fullname: string, disabled: bool, icon: Option<string>,
                       isfolder: bool, hasChildren: bool, children: seq<Entry>)

  /** Ids lie in [1, bound), a dict without a 'children' key has no entries,
    * and every key in a 'children' list names a registered dict created
    * later (larger id) than its parent. */
  ghost predicate Arena(nodes: map<string, Elem>, bound: int) {
    forall k {:trigger ArenaAt(nodes, bound, k)} :: k in nodes ==> ArenaAt(nodes, bound, k)
  }

  /** What `Arena` says of the dict registered under `k`. */
  ghost predicate ArenaAt(nodes: map<string, Elem>, bound: int, k: string)
    requires k in nodes
  {
    1 <= nodes[k].id < bound && (!nodes[k].hasChildren ==> nodes[k].children == []) &&
    forall c :: c in nodes[k].children && c.Ref? ==> c.key in nodes && nodes[c.key].id > nodes[k].id
  }

  /** No two registered dicts share an id. */
  ghost predicate DistinctIds(nodes: map<string, Elem>) {
    forall k1, k2 :: k1 in nodes && k2 in nodes && k1 != k2 ==> nodes[k1].id != nodes[k2].id
  }

  /** `keyOf` gives back the key of the dict holding each id. */
  ghost predicate Keyed(nodes: map<string, Elem>, keyOf: map<int, string>) {
    forall k {:trigger KeyedAt(nodes, keyOf, k)} :: k in nodes ==> KeyedAt(nodes, keyOf, k)
  }

  ghost predicate KeyedAt(nodes: map<string, Elem>, keyOf: map<int, string>, k: string)
    requires k in nodes
  {
    nodes[k].id in keyOf && keyOf[nodes[k].id] == k
  }

  lemma KeyedDistinct(nodes: map<string, Elem>, keyOf: map<int, string>)
    requires Keyed(nodes, keyOf)
    ensures DistinctIds(nodes)
  {
    forall k1, k2 | k1 in nodes && k2 in nodes && k1 != k2 ensures nodes[k1].id != nodes[k2].id {
      assert KeyedAt(nodes, keyOf, k1) && KeyedAt(nodes, keyOf, k2);
    }
  }

  function ElemOf(id: int, name: string, fullname: string, disabled: bool, icon: Option<string>): (e: Elem)
    ensures e.id == id && !e.hasChildren && e.children == []
  {
    Elem(id, name, fullname, disabled, icon, false, false, [])
  }

  /** The parent dict after a child is appended: a fresh 'children' list
    * (holding `first` when the parent is repeated as first child) if the
    * dict had none, then the child; 'isfolder' set when `folder`. */
  function Attach(p: Elem, first: seq<Entry>, key: string, folder: bool): (r: Elem)
    ensures r.id == p.id && r.fullname == p.fullname && r.name == p.name && r.hasChildren
    ensures r.children == (if p.hasChildren then p.children else first) + [Ref(key)]
    ensures r.isfolder == (p.isfolder || folder)
  {
    p.(hasChildren := true, children := (if p.hasChildren then p.children else first) + [Ref(key)],
       isfolder := p.isfolder || folder)
  }

  /** Every registered id lies in [1, bound). */
  lemma ArenaIds(nodes: map<string, Elem>, bound: int)
    requires Arena(nodes, bound)
    ensures forall k :: k in nodes ==> 1 <= nodes[k].id < bound
  {
    forall k | k in nodes ensures 1 <= nodes[k].id < bound {
      assert ArenaAt(nodes, bound, k);
    }
  }

  /** Appending a registered dict to an older registered parent keeps the
    * registry well formed and every id where it was. */
  lemma AttachKeepsArena(nodes: map<string, Elem>, keyOf: map<int, string>, bound: int, key: string,
                         pk: string, first: seq<Entry>, folder: bool, bound2: int)
    requires Arena(nodes, bound) && Keyed(nodes, keyOf) && key in nodes && pk in nodes
    requires nodes[pk].id < nodes[key].id && bound <= bound2
    requires forall c :: c in first ==> c.Copy?
    ensures var n2 := nodes[pk := Attach(nodes[pk], first, key, folder)];
            Arena(n2, bound2) && Keyed(n2, keyOf) && n2.Keys == nodes.Keys &&
            forall k :: k in nodes ==> n2[k].id == nodes[k].id
  {
    var n2 := nodes[pk := Attach(nodes[pk], first, key, folder)];
    forall k | k in n2 ensures ArenaAt(n2, bound2, k) && KeyedAt(n2, keyOf, k) {
      assert ArenaAt(nodes, bound, k) && ArenaAt(nodes, bound, key) && KeyedAt(nodes, keyOf, k);
      forall c | c in n2[k].children && c.Ref? ensures c.key in n2 && n2[c.key].id > n2[k].id {
        if k == pk {
          if c != Ref(key) {
            assert c in nodes[pk].children;
          }
        } else {
          assert c in nodes[k].children;
        }
      }
    }
  }

  /** Registering a fresh dict with the next id and no parent. */
  lemma AddKeepsArena(nodes: map<string, Elem>, keyOf: map<int, string>, bound: int, key: string, e: Elem, bound2: int)
    requires Arena(nodes, bound) && Keyed(nodes, keyOf) && key !in nodes && 1 <= bound
    requires e.id == bound && !e.hasChildren && e.children == [] && bound < bound2
    ensures var n1 := nodes[key := e];
            Arena(n1, bound2) && Keyed(n1, keyOf[bound := key]) && n1.Keys == nodes.Keys + {key} &&
            forall k :: k in nodes ==> n1[k].id == nodes[k].id
  {
    var n1 := nodes[key := e];
    forall k | k in n1 ensures ArenaAt(n1, bound2, k) {
      if k != key {
        assert ArenaAt(nodes, bound, k);
        forall c | c in n1[k].children && c.Ref? ensures c.key in n1 && n1[c.key].id > n1[k].id {
          assert c in nodes[k].children;
        }
      }
    }
    forall k | k in n1 ensures KeyedAt(n1, keyOf[bound := key], k) {
      if k != key {
        assert ArenaAt(nodes, bound, k) && KeyedAt(nodes, keyOf, k);
      }
    }
  }

  /** The registry invariant of both builders: well-formed entries below
    * `nextid`, `keyOf` inverting the ids, and every id of the name-to-id
    * dict given out. */
  ghost predicate RegistryCore(nextid: int, nodes: map<string, Elem>, ids: map<string, int>, keyOf: map<int, string>) {
    1 <= nextid && Arena(nodes, nextid) && Keyed(nodes, keyOf) && forall f :: f in ids ==> 1 <= ids[f] < nextid
  }

  /** Every dict is registered under its own fullname. */
  ghost predicate FullnameKeyed(nodes: map<string, Elem>) {
    forall f {:trigger NamedAt(nodes, f)} :: f in nodes ==> NamedAt(nodes, f)
  }

  ghost predicate NamedAt(nodes: map<string, Elem>, f: string)
    requires f in nodes
  {
    nodes[f].fullname == f
  }

  /** Registering a new dict with the next id, its name mapped to it. */
  lemma CoreAdd(nextid: int, nodes: map<string, Elem>, ids: map<string, int>, keyOf: map<int, string>,
                key: string, e: Elem, idkey: string)
    requires RegistryCore(nextid, nodes, ids, keyOf) && key !in nodes
    requires e.id == nextid && !e.hasChildren && e.children == []
    ensures RegistryCore(nextid + 1, nodes[key := e], ids[idkey := nextid], keyOf[nextid := key])
    ensures forall k :: k in nodes ==> nodes[key := e][k].id == nodes[k].id
    ensures FullnameKeyed(nodes) && e.fullname == key ==> FullnameKeyed(nodes[key := e])
  {
    AddKeepsArena(nodes, keyOf, nextid, key, e, nextid + 1);
    var n1 := nodes[key := e];
    if FullnameKeyed(nodes) && e.fullname == key {
      forall f | f in n1 ensures NamedAt(n1, f) {
        if f != key {
          assert NamedAt(nodes, f);
        }
      }
    }
  }

  /** Appending a registered dict to an older one, the repeated parent (if
    * any) taking the next id under `idkey`. */
  lemma CoreAttach(nextid: int, nodes: map<string, Elem>, ids: map<string, int>, keyOf: map<int, string>,
                   pk: string, key: string, first: seq<Entry>, folder: bool,
                   next: int, ids2: map<string, int>, idkey: string)
    requires RegistryCore(nextid, nodes, ids, keyOf) && pk in nodes && key in nodes && nodes[pk].id < nodes[key].id
    requires forall c :: c in first ==> c.Copy?
    requires (next == nextid && ids2 == ids) || (next == nextid + 1 && ids2 == ids[idkey := nextid])
    ensures var n2 := nodes[pk := Attach(nodes[pk], first, key, folder)];
            RegistryCore(next, n2, ids2, keyOf) &&
            n2.Keys == nodes.Keys && (forall k :: k in nodes ==> n2[k].id == nodes[k].id) &&
            (FullnameKeyed(nodes) ==> FullnameKeyed(n2))
  {
    AttachKeepsArena(nodes, keyOf, nextid, key, pk, first, folder, next);
    var n2 := nodes[pk := Attach(nodes[pk], first, key, folder)];
    if FullnameKeyed(nodes) {
      forall f | f in n2 ensures NamedAt(n2, f) {
        assert NamedAt(nodes, f);
      }
    }
  }

  /** The node dict a registry key stands for, with its children read out of
    * the registry in turn. */
  function Materialize(nodes: map<string, Elem>, bound: int, k: string): (r: Node)
    requires Arena(nodes, bound) && k in nodes
    ensures r.id == nodes[k].id && r.name == nodes[k].name && r.fullname == nodes[k].fullname
    ensures r.hasChildren == nodes[k].hasChildren && |r.children| == |nodes[k].children|
    decreases bound - nodes[k].id, 1, 0
  {
    var e := nodes[k];
    assert ArenaAt(nodes, bound, k);
    Node(e.id, e.name, e.fullname, e.disabled, e.icon, e.isfolder, e.hasChildren,
         MaterializeKids(nodes, bound, e.id, e.children))
  }

  function MaterializeKids(nodes: map<string, Elem>, bound: int, pid: int, cs: seq<Entry>): (r: seq<Node>)
    requires Arena(nodes, bound) && pid < bound
    requires forall c :: c in cs && c.Ref? ==> c.key in nodes && nodes[c.key].id > pid
    ensures |r| == |cs|
    decreases bound - pid, 0, |cs|
  {
    if cs == [] then []
    else
      var first := if cs[0].Copy? then cs[0].node else Materialize(nodes, bound, cs[0].key);
      [first] + MaterializeKids(nodes, bound, pid, cs[1..])
  }

  // ---------------------------------------------------------------- the shape of the built tree

  /** The ids a 'children' entry brings into the tree: those of the
    * registered subtree (`sub` maps each key to them), or the repeated
    * parent's own id. */
  ghost function EntryIds(sub: map<string, set<int>>, c: Entry): set<int> {
    if c.Copy? then {c.node.id} else if c.key in sub then sub[c.key] else {}
  }

  ghost function KidsIds(sub: map<string, set<int>>, cs: seq<Entry>): set<int>
    decreases |cs|
  {
    if cs == [] then {} else EntryIds(sub, cs[0]) + KidsIds(sub, cs[1..])
  }

  /** No id is brought in by two entries of the list. */
  ghost predicate KidsDisjoint(sub: map<string, set<int>>, cs: seq<Entry>)
    decreases |cs|
  {
    cs == [] || (EntryIds(sub, cs[0]) !! KidsIds(sub, cs[1..]) && KidsDisjoint(sub, cs[1..]))
  }

  /** `sub` gives the id set of every registered subtree: a dict's own id
    * and the disjoint sets its entries bring, all below `bound`; each
    * repeated-parent copy is a leaf with a larger id than its parent and an
    * id no registered dict has. */
  ghost predicate Forest(nodes: map<string, Elem>, sub: map<string, set<int>>, bound: int) {
    (forall k {:trigger k in sub} :: k in nodes ==> k in sub) &&
    (forall k {:trigger LocalIds(nodes, sub, k)} :: k in nodes ==> LocalIds(nodes, sub, k) && IdsBelow(sub, k, bound)) &&
    (forall k, c {:trigger CopyOk(nodes, k, c.node, bound)} ::
       k in nodes && c in nodes[k].children && c.Copy? ==> CopyOk(nodes, k, c.node, bound))
  }

  /** The subtree of `k` holds ids in [1, bound). */
  ghost predicate IdsBelow(sub: map<string, set<int>>, k: string, bound: int)
    requires k in sub
  {
    forall x :: x in sub[k] ==> 1 <= x < bound
  }

  /** The subtree of `k` holds its id and, disjointly, the ids its entries
    * bring. */
  ghost predicate LocalIds(nodes: map<string, Elem>, sub: map<string, set<int>>, k: string)
    requires k in nodes
  {
    k in sub && sub[k] == {nodes[k].id} + KidsIds(sub, nodes[k].children) &&
    nodes[k].id !in KidsIds(sub, nodes[k].children) && KidsDisjoint(sub, nodes[k].children)
  }

  /** A repeated parent under `k` is a leaf with an id above `k`'s, below
    * `bound`, and held by no registered dict. */
  ghost predicate CopyOk(nodes: map<string, Elem>, k: string, n: Node, bound: int)
    requires k in nodes
  {
    !n.hasChildren && nodes[k].id < n.id < bound && forall k2 :: k2 in nodes ==> nodes[k2].id != n.id
  }

  /** The id sets after `added` joins the subtree holding `pid`, and so the
    * subtree of each of its ancestors. */
  ghost function Grow(sub: map<string, set<int>>, pid: int, added: set<int>): (r: map<string, set<int>>)
  {
    map k | k in sub :: if pid in sub[k] then sub[k] + added else sub[k]
  }

  lemma {:induction false} KidsIdsAppend(sub: map<string, set<int>>, a: seq<Entry>, b: seq<Entry>)
    ensures KidsIds(sub, a + b) == KidsIds(sub, a) + KidsIds(sub, b)
    ensures KidsDisjoint(sub, a) && KidsDisjoint(sub, b) && KidsIds(sub, a) !! KidsIds(sub, b) ==>
              KidsDisjoint(sub, a + b)
    decreases |a|
  {
    if a == [] {
      assert a + b == b;
    } else {
      assert (a + b)[0] == a[0] && (a + b)[1..] == a[1..] + b;
      KidsIdsAppend(sub, a[1..], b);
    }
  }

  lemma {:induction false} EntryInKids(sub: map<string, set<int>>, cs: seq<Entry>, c: Entry)
    requires c in cs
    ensures EntryIds(sub, c) <= KidsIds(sub, cs)
    decreases |cs|
  {
    if cs[0] != c {
      EntryInKids(sub, cs[1..], c);
    }
  }

  /** Id sets that agree on every key of the list bring the same ids. */
  lemma {:induction false} KidsFrame(sub: map<string, set<int>>, sub2: map<string, set<int>>, cs: seq<Entry>)
    requires forall c :: c in cs && c.Ref? ==> c.key in sub && c.key in sub2 && sub2[c.key] == sub[c.key]
    ensures KidsIds(sub2, cs) == KidsIds(sub, cs)
    ensures KidsDisjoint(sub2, cs) == KidsDisjoint(sub, cs)
    decreases |cs|
  {
    if cs != [] {
      assert EntryIds(sub2, cs[0]) == EntryIds(sub, cs[0]);
      KidsFrame(sub, sub2, cs[1..]);
    }
  }

  /** After `Grow`, a list brings `added` as well exactly when it brought
    * `pid`, and stays disjoint when `added` is new to it. */
  lemma {:induction false} KidsGrow(sub: map<string, set<int>>, sub2: map<string, set<int>>, cs: seq<Entry>,
                                    pid: int, added: set<int>)
    requires forall c :: c in cs && c.Ref? ==>
               c.key in sub && c.key in sub2 && sub2[c.key] == (if pid in sub[c.key] then sub[c.key] + added else sub[c.key])
    requires forall c :: c in cs && c.Copy? ==> c.node.id != pid
    ensures KidsIds(sub2, cs) == KidsIds(sub, cs) + (if pid in KidsIds(sub, cs) then added else {})
    ensures KidsDisjoint(sub, cs) && added !! KidsIds(sub, cs) ==> KidsDisjoint(sub2, cs)
    decreases |cs|
  {
    if cs != [] {
      KidsGrow(sub, sub2, cs[1..], pid, added);
    }
  }

  /** Registering a dict with the next id and no children. */
  lemma ForestRegister(nodes: map<string, Elem>, sub: map<string, set<int>>, bound: int, key: string, e: Elem)
    requires Arena(nodes, bound) && Forest(nodes, sub, bound) && key !in nodes
    requires e.id == bound && !e.hasChildren && e.children == [] && 1 <= bound
    ensures Forest(nodes[key := e], sub[key := {bound}], bound + 1)
    ensures forall k :: k in nodes ==> bound !in sub[k]
  {
    var n1, s1 := nodes[key := e], sub[key := {bound}];
    forall k | k in n1 ensures LocalIds(n1, s1, k) {
      if k != key {
        assert LocalIds(nodes, sub, k) && ArenaAt(nodes, bound, k);
        KidsFrame(sub, s1, nodes[k].children);
      }
    }
    forall k, c | k in n1 && c in n1[k].children && c.Copy? ensures CopyOk(n1, k, c.node, bound + 1) {
      assert k != key && CopyOk(nodes, k, c.node, bound);
    }
    forall k | k in n1 ensures IdsBelow(s1, k, bound + 1) {
      if k != key {
        assert LocalIds(nodes, sub, k) && IdsBelow(sub, k, bound);
      }
    }
    forall k | k in nodes ensures bound !in sub[k] {
      assert LocalIds(nodes, sub, k) && IdsBelow(sub, k, bound);
    }
  }

  /** After `Grow`, a dict other than the parent `pid` keeps its ids
    * consistent, provided `added` is new to its subtree and does not hold
    * its id, or the dict has no entries. */
  lemma GrowOther(nodes: map<string, Elem>, sub: map<string, set<int>>, bound: int, pk: string,
                  added: set<int>, k: string)
    requires Arena(nodes, bound) && Forest(nodes, sub, bound) && DistinctIds(nodes)
    requires pk in nodes && k in nodes && k != pk
    requires (added !! sub[k] && nodes[k].id !in added) || nodes[k].children == []
    ensures LocalIds(nodes, Grow(sub, nodes[pk].id, added), k)
  {
    var pid, cs := nodes[pk].id, nodes[k].children;
    var s2 := Grow(sub, pid, added);
    assert LocalIds(nodes, sub, k) && ArenaAt(nodes, bound, k);
    forall c | c in cs && c.Copy? ensures c.node.id != pid {
      assert CopyOk(nodes, k, c.node, bound);
    }
    KidsGrow(sub, s2, cs, pid, added);
  }

  /** After `Grow`, the parent (id `pid`, entries `cs`) with its new
    * entries `extra` appended keeps its ids consistent, when `extra` brings
    * exactly `added`, new to the parent's subtree and not holding `pid`. */
  lemma GrowParent(sub: map<string, set<int>>, pid: int, cs: seq<Entry>, added: set<int>, extra: seq<Entry>)
    requires forall c :: c in cs && c.Ref? ==> c.key in sub
    requires forall c :: c in cs && c.Copy? ==> c.node.id != pid
    requires pid !in KidsIds(sub, cs) && KidsDisjoint(sub, cs)
    requires KidsIds(Grow(sub, pid, added), extra) == added
    requires KidsDisjoint(Grow(sub, pid, added), extra)
    requires added !! KidsIds(sub, cs) && pid !in added
    ensures var s2 := Grow(sub, pid, added);
            KidsIds(s2, cs + extra) == KidsIds(sub, cs) + added &&
            pid !in KidsIds(s2, cs + extra) && KidsDisjoint(s2, cs + extra)
  {
    var s2 := Grow(sub, pid, added);
    KidsGrow(sub, s2, cs, pid, added);
    KidsIdsAppend(s2, cs, extra);
  }

  lemma {:induction false} EntriesInSub(sub: map<string, set<int>>, cs: seq<Entry>, all: set<int>)
    requires KidsIds(sub, cs) <= all
    ensures forall c :: c in cs ==> EntryIds(sub, c) <= all
  {
    forall c | c in cs ensures EntryIds(sub, c) <= all {
      EntryInKids(sub, cs, c);
    }
  }

  /** What `ForestAttach` asks of its arguments. */
  ghost predicate AttachFits(nodes: map<string, Elem>, sub: map<string, set<int>>, bound: int, pk: string, key: string,
                             first: seq<Entry>, bound2: int)
  {
    Arena(nodes, bound) && Forest(nodes, sub, bound) &&
    pk in nodes && key in nodes && nodes[pk].id < nodes[key].id && !nodes[key].hasChildren &&
    (forall k :: k in nodes && k != key ==> nodes[key].id !in sub[k]) &&
    ((first == [] && bound2 == bound) ||
     (|first| == 1 && first[0].Copy? && first[0].node.id == bound && !first[0].node.hasChildren &&
      !nodes[pk].hasChildren && bound2 == bound + 1))
  }

  /** The ids the attached dict and the repeated parent bring. */
  function AddedIds(kid: int, first: seq<Entry>, bound: int): set<int> {
    {kid} + (if first == [] then {} else {bound})
  }

  /** The parent after the attach: its subtree holds the added ids too. */
  lemma AttachParentLocal(nodes: map<string, Elem>, sub: map<string, set<int>>, bound: int, pk: string, key: string,
                          first: seq<Entry>, folder: bool, bound2: int)
    requires AttachFits(nodes, sub, bound, pk, key, first, bound2)
    ensures var n2 := nodes[pk := Attach(nodes[pk], first, key, folder)];
            LocalIds(n2, Grow(sub, nodes[pk].id, AddedIds(nodes[key].id, first, bound)), pk)
  {
    var p := nodes[pk];
    var pid, kid, cs := p.id, nodes[key].id, p.children;
    var added := AddedIds(kid, first, bound);
    var s2 := Grow(sub, pid, added);
    var n2 := nodes[pk := Attach(p, first, key, folder)];
    assert LocalIds(nodes, sub, key) && LocalIds(nodes, sub, pk) && IdsBelow(sub, pk, bound) && IdsBelow(sub, key, bound);
    assert ArenaAt(nodes, bound, pk) && ArenaAt(nodes, bound, key);
    assert s2[key] == {kid};
    var extra := first + [Ref(key)];
    KidsIdsAppend(s2, first, [Ref(key)]);
    assert KidsIds(s2, extra) == added;
    assert n2[pk].children == cs + extra;
    forall c | c in cs && c.Copy? ensures c.node.id != pid {
      assert CopyOk(nodes, pk, c.node, bound);
    }
    GrowParent(sub, pid, cs, added, extra);
    assert pid in sub[pk];
  }

  /** Appending a fresh childless dict `key` to `pk`, after the repeated
    * parent `first` (a leaf with id `bound`) when that is given. */
  lemma ForestAttach(nodes: map<string, Elem>, keyOf: map<int, string>, sub: map<string, set<int>>, bound: int,
                     pk: string, key: string, first: seq<Entry>, folder: bool, bound2: int)
    requires Keyed(nodes, keyOf) && AttachFits(nodes, sub, bound, pk, key, first, bound2)
    ensures Forest(nodes[pk := Attach(nodes[pk], first, key, folder)],
                   Grow(sub, nodes[pk].id, AddedIds(nodes[key].id, first, bound)), bound2)
  {
    KeyedDistinct(nodes, keyOf);
    AttachLocals(nodes, sub, bound, pk, key, first, folder, bound2);
    AttachBounds(nodes, sub, bound, pk, key, first, folder, bound2);
    AttachCopies(nodes, sub, bound, pk, key, first, folder, bound2);
  }

  lemma AttachLocals(nodes: map<string, Elem>, sub: map<string, set<int>>, bound: int, pk: string, key: string,
                     first: seq<Entry>, folder: bool, bound2: int)
    requires AttachFits(nodes, sub, bound, pk, key, first, bound2) && DistinctIds(nodes)
    ensures var n2 := nodes[pk := Attach(nodes[pk], first, key, folder)];
            forall k :: k in n2 ==> LocalIds(n2, Grow(sub, nodes[pk].id, AddedIds(nodes[key].id, first, bound)), k)
  {
    var p := nodes[pk];
    var pid, kid := p.id, nodes[key].id;
    var added := AddedIds(kid, first, bound);
    var n2 := nodes[pk := Attach(p, first, key, folder)];
    var s2 := Grow(sub, pid, added);
    AttachParentLocal(nodes, sub, bound, pk, key, first, folder, bound2);
    forall k | k in n2 ensures LocalIds(n2, s2, k) {
      if k != pk {
        assert LocalIds(nodes, sub, k) && ArenaAt(nodes, bound, k) && ArenaAt(nodes, bound, key);
        if k != key {
          assert IdsBelow(sub, k, bound);
          assert nodes[k].id != kid && nodes[k].id < bound;
          assert kid !in sub[k];
        }
        GrowOther(nodes, sub, bound, pk, added, k);
      }
    }
  }

  lemma AttachBounds(nodes: map<string, Elem>, sub: map<string, set<int>>, bound: int, pk: string, key: string,
                     first: seq<Entry>, folder: bool, bound2: int)
    requires AttachFits(nodes, sub, bound, pk, key, first, bound2)
    ensures var s2 := Grow(sub, nodes[pk].id, AddedIds(nodes[key].id, first, bound));
            forall k :: k in nodes && k in s2 ==> IdsBelow(s2, k, bound2)
  {
    var added := AddedIds(nodes[key].id, first, bound);
    var s2 := Grow(sub, nodes[pk].id, added);
    forall k | k in nodes && k in s2 ensures IdsBelow(s2, k, bound2) {
      assert LocalIds(nodes, sub, k) && LocalIds(nodes, sub, key) && IdsBelow(sub, k, bound) && IdsBelow(sub, key, bound);
    }
  }

  lemma AttachCopies(nodes: map<string, Elem>, sub: map<string, set<int>>, bound: int, pk: string, key: string,
                     first: seq<Entry>, folder: bool, bound2: int)
    requires AttachFits(nodes, sub, bound, pk, key, first, bound2)
    ensures var n2 := nodes[pk := Attach(nodes[pk], first, key, folder)];
            forall k, c :: k in n2 && c in n2[k].children && c.Copy? ==> CopyOk(n2, k, c.node, bound2)
  {
    var p := nodes[pk];
    var n2 := nodes[pk := Attach(p, first, key, folder)];
    forall k, c | k in n2 && c in n2[k].children && c.Copy? ensures CopyOk(n2, k, c.node, bound2) {
      if k == pk && c !in p.children {
        assert c in first && ArenaAt(nodes, bound, pk);
        ArenaIds(nodes, bound);
      } else {
        assert CopyOk(nodes, k, c.node, bound);
      }
    }
  }

  /** The ids of a list of node dicts, as a set. */
  ghost function IdSet(s: seq<Node>): set<int> {
    set m | m in s :: m.id
  }

  /** Two walks with unique ids and no id in common join into one. */
  lemma UniqueIdsJoin(a: seq<Node>, b: seq<Node>)
    requires UniqueIds(a) && UniqueIds(b) && IdSet(a) !! IdSet(b)
    ensures UniqueIds(a + b) && IdSet(a + b) == IdSet(a) + IdSet(b)
  {
    forall i, j | 0 <= i < j < |a + b| ensures (a + b)[i].id != (a + b)[j].id {
      if j < |a| {
        assert (a + b)[i] == a[i] && (a + b)[j] == a[j];
      } else if |a| <= i {
        assert (a + b)[i] == b[i - |a|] && (a + b)[j] == b[j - |a|];
      } else {
        assert (a + b)[i] == a[i] && (a + b)[j] == b[j - |a|];
        assert a[i] in a && b[j - |a|] in b;
        assert a[i].id in IdSet(a) && b[j - |a|].id in IdSet(b);
      }
    }
  }

  /** A node over children whose walk has unique, increasing ids, none of
    * them its own and each child above it, has such a walk too. */
  lemma NodeShape(t: Node)
    requires t.hasChildren || t.children == []
    requires 0 <= t.id && forall c :: c in t.children ==> c.id > t.id
    requires UniqueIds(PreorderSeq(t.children)) && TreeviewIndex.Ordered(PreorderSeq(t.children))
    requires t.id !in IdSet(PreorderSeq(t.children))
    ensures UniqueIds(Preorder(t)) && TreeviewIndex.Ordered(Preorder(t))
    ensures IdSet(Preorder(t)) == {t.id} + IdSet(PreorderSeq(t.children))
  {
    var rest := if t.hasChildren then PreorderSeq(t.children) else [];
    assert Preorder(t) == [t] + rest;
    assert IdSet([t]) == {t.id};
    UniqueIdsJoin([t], rest);
    OrderedJoin([t], rest);
  }

  lemma OrderedJoin(a: seq<Node>, b: seq<Node>)
    requires TreeviewIndex.Ordered(a) && TreeviewIndex.Ordered(b)
    ensures TreeviewIndex.Ordered(a + b)
  {
  }

  /** The walk of a list of dicts, built from the walk of its head and of
    * its tail. */
  lemma SeqShape(kids: seq<Node>)
    requires kids != []
    requires UniqueIds(Preorder(kids[0])) && TreeviewIndex.Ordered(Preorder(kids[0]))
    requires UniqueIds(PreorderSeq(kids[1..])) && TreeviewIndex.Ordered(PreorderSeq(kids[1..]))
    requires IdSet(Preorder(kids[0])) !! IdSet(PreorderSeq(kids[1..]))
    ensures UniqueIds(PreorderSeq(kids)) && TreeviewIndex.Ordered(PreorderSeq(kids))
    ensures IdSet(PreorderSeq(kids)) == IdSet(Preorder(kids[0])) + IdSet(PreorderSeq(kids[1..]))
  {
    assert PreorderSeq(kids) == Preorder(kids[0]) + PreorderSeq(kids[1..]);
    UniqueIdsJoin(Preorder(kids[0]), PreorderSeq(kids[1..]));
    OrderedJoin(Preorder(kids[0]), PreorderSeq(kids[1..]));
  }

  /** What `Forest` says of one registered dict. */
  lemma ForestAt(nodes: map<string, Elem>, sub: map<string, set<int>>, bound: int, k: string)
    requires Forest(nodes, sub, bound) && k in nodes
    ensures sub[k] == {nodes[k].id} + KidsIds(sub, nodes[k].children)
    ensures nodes[k].id !in KidsIds(sub, nodes[k].children) && KidsDisjoint(sub, nodes[k].children)
    ensures forall c :: c in nodes[k].children && c.Copy? ==> !c.node.hasChildren && nodes[k].id < c.node.id
  {
    assert LocalIds(nodes, sub, k);
    forall c | c in nodes[k].children && c.Copy? ensures !c.node.hasChildren && nodes[k].id < c.node.id {
      assert CopyOk(nodes, k, c.node, bound);
    }
  }

  /** The tree read out of a registry key has unique ids, each child's id
    * above its parent's, and exactly the ids `sub` gives the key. */
  lemma {:induction false} MaterializeShape(nodes: map<string, Elem>, sub: map<string, set<int>>, bound: int, k: string)
    requires Arena(nodes, bound) && Forest(nodes, sub, bound) && k in nodes
    ensures var p := Preorder(Materialize(nodes, bound, k));
            UniqueIds(p) && TreeviewIndex.Ordered(p) && IdSet(p) == sub[k]
    decreases bound - nodes[k].id, 1, 0
  {
    var e := nodes[k];
    assert ArenaAt(nodes, bound, k);
    ForestAt(nodes, sub, bound, k);
    MaterializeKidsShape(nodes, sub, bound, e.id, e.children);
    NodeShape(Materialize(nodes, bound, k));
  }

  lemma {:induction false} MaterializeKidsShape(nodes: map<string, Elem>, sub: map<string, set<int>>, bound: int,
                                                pid: int, cs: seq<Entry>)
    requires Arena(nodes, bound) && Forest(nodes, sub, bound) && pid < bound
    requires forall c :: c in cs && c.Ref? ==> c.key in nodes && nodes[c.key].id > pid
    requires forall c :: c in cs && c.Copy? ==> !c.node.hasChildren && pid < c.node.id
    requires KidsDisjoint(sub, cs)
    ensures var kids := MaterializeKids(nodes, bound, pid, cs);
            var p := PreorderSeq(kids);
            UniqueIds(p) && TreeviewIndex.Ordered(p) && IdSet(p) == KidsIds(sub, cs) &&
            forall c :: c in kids ==> c.id > pid
    decreases bound - pid, 0, |cs|
  {
    if cs != [] {
      var kids := MaterializeKids(nodes, bound, pid, cs);
      assert kids[1..] == MaterializeKids(nodes, bound, pid, cs[1..]);
      MaterializeKidsShape(nodes, sub, bound, pid, cs[1..]);
      if cs[0].Copy? {
        assert Preorder(kids[0]) == [kids[0]];
        assert IdSet([kids[0]]) == {kids[0].id};
      } else {
        MaterializeShape(nodes, sub, bound, cs[0].key);
      }
      SeqShape(kids);
    }
  }

  /** No 'children' list holds a repeated parent. */
  ghost predicate NoCopies(nodes: map<string, Elem>) {
    forall k {:trigger RefsOnly(nodes, k)} :: k in nodes ==> RefsOnly(nodes, k)
  }

  ghost predicate RefsOnly(nodes: map<string, Elem>, k: string)
    requires k in nodes
  {
    forall c :: c in nodes[k].children ==> c.Ref?
  }

  lemma NoCopiesAdd(nodes: map<string, Elem>, key: string, e: Elem)
    requires NoCopies(nodes) && e.children == []
    ensures NoCopies(nodes[key := e])
  {
    var n1 := nodes[key := e];
    forall k | k in n1 ensures RefsOnly(n1, k) {
      if k != key {
        assert RefsOnly(nodes, k);
      }
    }
  }

  lemma NoCopiesAttach(nodes: map<string, Elem>, pk: string, key: string, folder: bool)
    requires NoCopies(nodes) && pk in nodes
    ensures NoCopies(nodes[pk := Attach(nodes[pk], [], key, folder)])
  {
    var n2 := nodes[pk := Attach(nodes[pk], [], key, folder)];
    forall k | k in n2 ensures RefsOnly(n2, k) {
      assert RefsOnly(nodes, k);
      forall c | c in n2[k].children ensures c.Ref? {
        if k != pk || c != Ref(key) {
          assert c in nodes[k].children;
        }
      }
    }
  }

  /** With every dict registered under its fullname and no repeated parent,
    * each dict of the tree read out of `k` is the registered dict of its
    * fullname. */
  lemma {:induction false} MaterializeBacked(nodes: map<string, Elem>, bound: int, k: string)
    requires Arena(nodes, bound) && FullnameKeyed(nodes) && NoCopies(nodes) && k in nodes
    ensures forall m :: m in Preorder(Materialize(nodes, bound, k)) ==> m.fullname in nodes && nodes[m.fullname].id == m.id
    decreases bound - nodes[k].id, 1, 0
  {
    var e := nodes[k];
    var t := Materialize(nodes, bound, k);
    assert RefsOnly(nodes, k) && ArenaAt(nodes, bound, k) && NamedAt(nodes, k);
    MaterializeKidsBacked(nodes, bound, e.id, e.children);
    assert Preorder(t) == [t] + (if t.hasChildren then PreorderSeq(t.children) else []);
  }

  lemma {:induction false} MaterializeKidsBacked(nodes: map<string, Elem>, bound: int, pid: int, cs: seq<Entry>)
    requires Arena(nodes, bound) && FullnameKeyed(nodes) && NoCopies(nodes) && pid < bound
    requires forall c :: c in cs ==> c.Ref? && c.key in nodes && nodes[c.key].id > pid
    ensures forall m :: m in PreorderSeq(MaterializeKids(nodes, bound, pid, cs)) ==>
              m.fullname in nodes && nodes[m.fullname].id == m.id
    decreases bound - pid, 0, |cs|
  {
    if cs != [] {
      var kids := MaterializeKids(nodes, bound, pid, cs);
      assert kids[1..] == MaterializeKids(nodes, bound, pid, cs[1..]);
      MaterializeBacked(nodes, bound, cs[0].key);
      MaterializeKidsBacked(nodes, bound, pid, cs[1..]);
      assert PreorderSeq(kids) == Preorder(kids[0]) + PreorderSeq(kids[1..]);
    }
  }

  /** A walk with unique ids whose dicts are registered under their
    * fullnames has no fullname twice. */
  lemma BackedDistinct(nodes: map<string, Elem>, s: seq<Node>)
    requires UniqueIds(s)
    requires forall m :: m in s ==> m.fullname in nodes && nodes[m.fullname].id == m.id
    ensures TreeviewIndex.DistinctFullnames(s)
  {
    forall i, j | 0 <= i < j < |s| ensures s[i].fullname != s[j].fullname {
      assert s[i] in s && s[j] in s;
    }
  }

  // ---------------------------------------------------------------- createTreeviewFromList

  /** The locals of `createTreeviewFromList` that its nested `addNode`
    * updates (`nextid`, `nodes`, `names2id`), with the arguments it reads.
    * `keyOf`, for the model only, maps each id back to its registry key. */
  class ListTreeBuilder {
    const rootName: string
    const separator: string
    const displayfullname: bool
    const substitutionDict: Option<map<string, string>>
    const disabled: seq<string>
    const iconsDict: Option<map<string, string>>
    const iconsshow: bool
    const iconsfolder: bool
    const repeatParent: bool

    var nextid: int
    var nodes: map<string, Elem>
    var names2id: map<string, int>
    ghost var keyOf: map<int, string>
    ghost var sub: map<string, set<int>>

    /** The registry invariant that holds from the start: well-formed
      * entries, distinct ids, every id of `names2id` given out, and `sub`
      * giving the ids of every registered subtree; no repeated parent
      * without `repeatParent`, and every dict under its fullname without
      * `substitutionDict`. */
    ghost predicate Core()
      reads this
    {
      |separator| > 0 && RegistryCore(nextid, nodes, names2id, keyOf) && Forest(nodes, sub, nextid) &&
      (!repeatParent ==> NoCopies(nodes)) && (substitutionDict.None? ==> FullnameKeyed(nodes))
    }

    /** Once the root is created it is registered with id 1. */
    ghost predicate Valid()
      reads this
    {
      Core() && rootName in nodes && nodes[rootName].id == 1
    }

    /** `GetNodeString(fullname)`: the fullname, or its last part. */
    function NodeString(fullname: string): string
      requires |separator| > 0
    {
      if displayfullname then fullname
      else
        var parts := Split(fullname, separator);
        parts[|parts| - 1]
    }

    /** The fullname stored for a dict: the name after `substitutionDict`. */
    function ElemName(name: string): string {
      if substitutionDict.Some? && name in substitutionDict.value then substitutionDict.value[name] else name
    }

    function IconOf(elemname: string): Option<string> {
      if iconsDict.Some? && elemname in iconsDict.value then Some(iconsDict.value[elemname]) else None
    }

    /** The repeated-parent dict put first in a parent's new 'children' list. */
    function FirstElem(p: Elem, id: int): Node
      requires |separator| > 0
    {
      Node(id, NodeString(p.name), p.name, p.name in disabled, None, false, false, [])
    }

    /** The new dict for `name`, before anything is appended to it. */
    function NewElem(id: int, name: string): Elem
      requires |separator| > 0
    {
      ElemOf(id, NodeString(ElemName(name)), ElemName(name), name in disabled, IconOf(ElemName(name)))
    }

    /** Whether a new 'children' list of `p` starts with the repeated parent. */
    predicate Repeats(p: Elem) {
      !p.hasChildren && repeatParent && p.name != rootName
    }

    /** The start of `createTreeviewFromList`: empty registry, `nextid` 1,
      * then `root = addNode(rootName, None)`. */
    constructor (rootName: string, separator: string, displayfullname: bool,
                 substitutionDict: Option<map<string, string>>, disabled: seq<string>,
                 iconsDict: Option<map<string, string>>, iconsshow: bool, iconsfolder: bool,
                 repeatParent: bool)
      requires |separator| > 0
      ensures Valid()
      ensures this.rootName == rootName && this.separator == separator && this.displayfullname == displayfullname
      ensures this.substitutionDict == substitutionDict && this.disabled == disabled && this.iconsDict == iconsDict
      ensures this.iconsshow == iconsshow && this.iconsfolder == iconsfolder && this.repeatParent == repeatParent
      ensures nextid == 2 && nodes == map[rootName := NewElem(1, rootName)]
      ensures names2id == map[ElemName(rootName) := 1]
    {
      this.rootName := rootName;
      this.separator := separator;
      this.displayfullname := displayfullname;
      this.substitutionDict := substitutionDict;
      this.disabled := disabled;
      this.iconsDict := iconsDict;
      this.iconsshow := iconsshow;
      this.iconsfolder := iconsfolder;
      this.repeatParent := repeatParent;
      nextid := 1;
      nodes := map[];
      names2id := map[];
      keyOf := map[];
      sub := map[];
      new;
      var root := AddNode(rootName, None);
    }

    /** The path loop of `createTreeviewFromList`: every fullname visited
      * along every path ends up registered, once. */
    method AddPaths(nameslist: seq<string>)
      requires Valid()
      modifies this
      ensures Valid()
      ensures nodes.Keys == old(nodes).Keys + PathSet(nameslist, separator, separator)
      ensures forall k :: k in old(nodes) ==> nodes[k].id == old(nodes)[k].id
      ensures old(nextid) <= nextid
    {
      var n := 0;
      while n < |nameslist|
        invariant 0 <= n <= |nameslist| && Valid()
        invariant nodes.Keys == old(nodes).Keys + PathSet(nameslist[..n], separator, separator)
        invariant forall k :: k in old(nodes) ==> nodes[k].id == old(nodes)[k].id
        invariant old(nextid) <= nextid
      {
        ghost var before := nodes.Keys;
        AddPath(nameslist[n]);
        PathSetGrows(old(nodes).Keys, before, nodes.Keys, nameslist, separator, separator, n);
        n := n + 1;
      }
      assert nameslist[..n] == nameslist;
    }

    /** One name of the path loop: its parts in order, each extending the
      * fullname accumulated so far. */
    method AddPath(name: string)
      requires Valid()
      modifies this
      ensures Valid()
      ensures nodes.Keys == old(nodes).Keys + Visited(Split(name, separator), separator)
      ensures forall k :: k in old(nodes) ==> nodes[k].id == old(nodes)[k].id
      ensures old(nextid) <= nextid
    {
      var parts := Split(name, separator);
      var fullname := "";
      var i := 0;
      while i < |parts|
        invariant 0 <= i <= |parts| && Valid()
        invariant fullname == Acc(parts[..i], separator)
        invariant nodes.Keys == old(nodes).Keys + Visited(parts[..i], separator)
        invariant forall k :: k in old(nodes) ==> nodes[k].id == old(nodes)[k].id
        invariant old(nextid) <= nextid
      {
        ghost var before := nodes.Keys;
        fullname := AddPart(fullname, parts[i]);
        VisitedGrows(old(nodes).Keys, before, nodes.Keys, parts, separator, i, fullname);
        i := i + 1;
      }
      assert parts[..|parts|] == parts;
    }

    /** The body of the inner loop: the fullname grows by one part, and the
      * parent is the root unless a dict is registered under the previous
      * fullname. A new fullname gets the next id and is appended to that
      * parent's 'children'; a registered one changes nothing. */
    method AddPart(parentname: string, part: string) returns (fullname: string)
      requires Valid()
      modifies this
      ensures fullname == Extend(parentname, separator, part)
      ensures Valid()
      ensures nodes.Keys == old(nodes).Keys + {fullname}
      ensures forall k :: k in old(nodes) ==> nodes[k].id == old(nodes)[k].id
      ensures old(nextid) <= nextid
      ensures fullname in old(nodes) ==> nodes == old(nodes) && nextid == old(nextid) && names2id == old(names2id)
      ensures fullname !in old(nodes) ==>
                var pk := if parentname in old(nodes) then parentname else rootName;
                nodes[fullname] == NewElem(old(nextid), fullname) && Ref(fullname) in nodes[pk].children
    {
      fullname := Extend(parentname, separator, part);
      var parent := rootName;
      if parentname in nodes {
        parent := parentname;
      }
      var _ := AddNode(fullname, Some(parent));
    }

    /** The nested `addNode(name, parent)`, `parent` given by its registry
      * key (the root is added with no parent). A name already registered
      * changes nothing and gives None; otherwise the new dict takes the next
      * id, is registered under `name` and its fullname is mapped to its id,
      * and it is appended to the parent. */
    method AddNode(name: string, parent: Option<string>) returns (elem: Option<Elem>)
      requires Core()
      requires parent.Some? ==> parent.value in nodes
      modifies this
      ensures name in old(nodes) ==>
                elem == None && nodes == old(nodes) && names2id == old(names2id) && nextid == old(nextid)
      ensures name !in old(nodes) && parent.None? ==>
                elem == Some(NewElem(old(nextid), name)) && nodes == old(nodes)[name := NewElem(old(nextid), name)] &&
                names2id == old(names2id)[ElemName(name) := old(nextid)] && nextid == old(nextid) + 1
      ensures name !in old(nodes) && parent.Some? && Repeats(old(nodes)[parent.value]) ==>
                var p := old(nodes)[parent.value];
                elem == Some(NewElem(old(nextid), name)) &&
                nodes == old(nodes)[name := NewElem(old(nextid), name)]
                                   [parent.value := Attach(p, [Copy(FirstElem(p, old(nextid) + 1))], name, iconsshow && iconsfolder)] &&
                names2id == old(names2id)[ElemName(name) := old(nextid)][p.name := old(nextid) + 1] &&
                nextid == old(nextid) + 2
      ensures name !in old(nodes) && parent.Some? && !Repeats(old(nodes)[parent.value]) ==>
                var p := old(nodes)[parent.value];
                elem == Some(NewElem(old(nextid), name)) &&
                nodes == old(nodes)[name := NewElem(old(nextid), name)]
                                   [parent.value := Attach(p, [], name, iconsshow && iconsfolder)] &&
                names2id == old(names2id)[ElemName(name) := old(nextid)] &&
                nextid == old(nextid) + 1
      ensures Core() && nodes.Keys == old(nodes).Keys + {name}
      ensures forall k :: k in old(nodes) ==> nodes[k].id == old(nodes)[k].id
    {
      if name in nodes {
        return None;
      }
      var e;
      if parent.None? {
        e := Register(name);
      } else {
        e := AddChild(name, parent.value);
      }
      elem := Some(e);
    }

    /** A new name below a registered parent: registered, then attached. */
    method AddChild(name: string, pk: string) returns (e: Elem)
      requires Core() && name !in nodes && pk in nodes
      modifies this
      ensures e == NewElem(old(nextid), name)
      ensures Repeats(old(nodes)[pk]) ==>
                var p := old(nodes)[pk];
                nodes == old(nodes)[name := e][pk := Attach(p, [Copy(FirstElem(p, old(nextid) + 1))], name, iconsshow && iconsfolder)] &&
                names2id == old(names2id)[ElemName(name) := old(nextid)][p.name := old(nextid) + 1] &&
                nextid == old(nextid) + 2
      ensures !Repeats(old(nodes)[pk]) ==>
                nodes == old(nodes)[name := e][pk := Attach(old(nodes)[pk], [], name, iconsshow && iconsfolder)] &&
                names2id == old(names2id)[ElemName(name) := old(nextid)] && nextid == old(nextid) + 1
      ensures Core() && nodes.Keys == old(nodes).Keys + {name}
      ensures forall k :: k in old(nodes) ==> nodes[k].id == old(nodes)[k].id
    {
      assert ArenaAt(nodes, nextid, pk);
      e := Register(name);
      assert nodes[pk] == old(nodes)[pk];
      AttachTo(pk, name);
    }

    /** The first half of `addNode` for a new name: the dict with the next
      * id, registered under the name, its fullname mapped to the id. */
    method Register(name: string) returns (e: Elem)
      requires Core() && name !in nodes
      modifies this
      ensures e == NewElem(old(nextid), name) && nodes == old(nodes)[name := e]
      ensures names2id == old(names2id)[ElemName(name) := old(nextid)] && nextid == old(nextid) + 1
      ensures Core() && nodes.Keys == old(nodes).Keys + {name}
      ensures forall k :: k in old(nodes) ==> nodes[k].id == old(nodes)[k].id
      ensures forall k :: k in nodes && k != name ==> nodes[name].id !in sub[k]
    {
      e := NewElem(nextid, name);
      CoreAdd(nextid, nodes, names2id, keyOf, name, e, ElemName(name));
      ForestRegister(nodes, sub, nextid, name, e);
      if !repeatParent {
        NoCopiesAdd(nodes, name, e);
      }
      if substitutionDict.None? {
        assert e.fullname == name;
      }
      nodes, names2id, keyOf, sub, nextid :=
        nodes[name := e], names2id[ElemName(name) := nextid], keyOf[nextid := name], sub[name := {nextid}], nextid + 1;
    }

    /** The `if parent != None` block of `addNode`: a parent without a
      * 'children' key gets a new list, which starts with the repeated
      * parent (taking the next id, its name mapped to it) when that option
      * is on and the parent is not the root; then the child is appended and
      * the parent marked as a folder when folder icons are shown. */
    method AttachTo(pk: string, key: string)
      requires Core()
      requires pk in nodes && key in nodes && nodes[pk].id < nodes[key].id
      requires !nodes[key].hasChildren && forall k :: k in nodes && k != key ==> nodes[key].id !in sub[k]
      modifies this
      ensures var p := old(nodes)[pk];
              Repeats(p) ==>
                nodes == old(nodes)[pk := Attach(p, [Copy(FirstElem(p, old(nextid)))], key, iconsshow && iconsfolder)] &&
                names2id == old(names2id)[p.name := old(nextid)] && nextid == old(nextid) + 1
      ensures var p := old(nodes)[pk];
              !Repeats(p) ==>
                nodes == old(nodes)[pk := Attach(p, [], key, iconsshow && iconsfolder)] &&
                names2id == old(names2id) && nextid == old(nextid)
      ensures Core() && nodes.Keys == old(nodes).Keys
      ensures forall k :: k in old(nodes) ==> nodes[k].id == old(nodes)[k].id
    {
      var p := nodes[pk];
      var folder := iconsshow && iconsfolder;
      var first := if Repeats(p) then [Copy(FirstElem(p, nextid))] else [];
      var next := if Repeats(p) then nextid + 1 else nextid;
      var ids := if Repeats(p) then names2id[p.name := nextid] else names2id;
      CoreAttach(nextid, nodes, names2id, keyOf, pk, key, first, folder, next, ids, p.name);
      ForestAttach(nodes, keyOf, sub, nextid, pk, key, first, folder, next);
      if !repeatParent {
        NoCopiesAttach(nodes, pk, key, folder);
      }
      nodes, names2id, sub, nextid :=
        nodes[pk := Attach(p, first, key, folder)], ids, Grow(sub, p.id, AddedIds(nodes[key].id, first, nextid)), next;
    }
  }

  // ---------------------------------------------------------------- the selected, opened and active ids

  /** What a builder passes to `CustomTreeview`: `items=[root]` and the
    * `selected`, `opened` and `active` ids. */
  datatype Built = Built(items: seq<Node>, selectedIds: seq<int>, openedIds: seq<int>, activeId: Option<int>)

  /** `[names2id[x] for x in xs if x in names2id]`. */
  function KnownIds(m: map<string, int>, xs: seq<string>): (r: seq<int>)
    ensures |r| <= |xs|
    ensures forall y :: y in r ==> exists x :: x in xs && x in m && m[x] == y
    ensures forall x :: x in xs && x in m ==> m[x] in r
    ensures (forall x :: x in xs ==> x in m) ==> |r| == |xs| && forall i :: 0 <= i < |xs| ==> r[i] == m[xs[i]]
  {
    if xs == [] then []
    else (if xs[0] in m then [m[xs[0]]] else []) + KnownIds(m, xs[1..])
  }

  /** `selectedids`: every leaf id, depth first, when `select_all`;
    * otherwise the ids of the known selected names. */
  function SelectedIds(selectAll: bool, root: Node, m: map<string, int>, selected: seq<string>): (r: seq<int>)
    ensures selectAll ==> r == LeafIds(Preorder(root))
    ensures !selectAll ==> r == KnownIds(m, selected)
  {
    if selectAll then LeavesOfTree(root) else KnownIds(m, selected)
  }

  /** `openedids`: nothing when `opened_all` (the widget opens every node),
    * the root alone when no name is given, otherwise the ids of the known
    * opened names. */
  function OpenedIds(openedAll: bool, m: map<string, int>, openedNames: seq<string>): (r: seq<int>)
    ensures openedAll ==> r == []
    ensures !openedAll && openedNames == [] ==> r == [1]
    ensures !openedAll && openedNames != [] ==> r == KnownIds(m, openedNames)
  {
    if openedAll then [] else if |openedNames| == 0 then [1] else KnownIds(m, openedNames)
  }

  /** `activeid` in `createTreeviewFromList`: `names2id[active]`, which
    * raises KeyError for an unknown name. */
  function ActiveIdOrRaise(m: map<string, int>, active: Option<string>): (r: Result<Option<int>>)
    ensures r.Err? <==> active.Some? && active.value !in m
    ensures r.Err? ==> r.error == KeyError
    ensures r.Ok? ==> r.value == if active.Some? then Some(m[active.value]) else None
  {
    if active.None? then Ok(None) else if active.value in m then Ok(Some(m[active.value])) else Err(KeyError)
  }

  /** `activeid` in `createTreeviewFromDF2Columns`: an unknown name gives None. */
  function ActiveIdOrNone(m: map<string, int>, active: Option<string>): (r: Option<int>)
    ensures r.Some? <==> active.Some? && active.value in m
    ensures r.Some? ==> r.value == m[active.value]
  {
    if active.Some? && active.value in m then Some(m[active.value]) else None
  }

  /** `createTreeviewFromList` up to the `CustomTreeview` it builds: the root,
    * then the paths, then the id lists. Every visited fullname is a
    * registered dict, the root has id 1, and an unknown active name raises. */
  method CreateTreeviewFromList(nameslist: seq<string>, rootName: string, separator: string, displayfullname: bool,
                                substitutionDict: Option<map<string, string>>, disabled: seq<string>,
                                iconsDict: Option<map<string, string>>, iconsshow: bool, iconsfolder: bool,
                                repeatParent: bool, selectAll: bool, selected: seq<string>,
                                openedNames: seq<string>, openedAll: bool, active: Option<string>)
    returns (b: ListTreeBuilder, r: Result<Built>)
    requires |separator| > 0
    ensures fresh(b) && b.Valid() && b.rootName == rootName && b.separator == separator
    ensures b.nodes.Keys == {rootName} + PathSet(nameslist, separator, separator)
    ensures r.Err? <==> active.Some? && active.value !in b.names2id
    ensures r.Err? ==> r.error == KeyError
    ensures var root := Materialize(b.nodes, b.nextid, rootName);
            UniqueIds(Preorder(root)) && TreeviewIndex.Ordered(Preorder(root)) &&
            TreeviewIndex.ParentsBelow(TreeviewIndex.IndexOf([root]).id2parentid)
    ensures !repeatParent && substitutionDict.None? ==>
              TreeviewIndex.DistinctFullnames(Preorder(Materialize(b.nodes, b.nextid, rootName)))
    ensures r.Ok? ==>
              var root := Materialize(b.nodes, b.nextid, rootName);
              root.id == 1 &&
              r.value == Built([root], SelectedIds(selectAll, root, b.names2id, selected),
                               OpenedIds(openedAll, b.names2id, openedNames), ActiveIdOrRaise(b.names2id, active).value)
  {
    b := new ListTreeBuilder(rootName, separator, displayfullname, substitutionDict, disabled, iconsDict,
                             iconsshow, iconsfolder, repeatParent);
    b.AddPaths(nameslist);
    var root := Materialize(b.nodes, b.nextid, rootName);
    MaterializeShape(b.nodes, b.sub, b.nextid, rootName);
    TreeviewIndex.OrderedParentsBelow(root);
    if !repeatParent && substitutionDict.None? {
      MaterializeBacked(b.nodes, b.nextid, rootName);
      BackedDistinct(b.nodes, Preorder(root));
    }
    var selectedids := SelectedIds(selectAll, root, b.names2id, selected);
    var openedids := OpenedIds(openedAll, b.names2id, openedNames);
    var activeid := ActiveIdOrRaise(b.names2id, active);
    if activeid.Err? {
      return b, Err(activeid.error);
    }
    r := Ok(Built([root], selectedids, openedids, activeid.value));
  }

  // ---------------------------------------------------------------- createTreeviewFromDF2Columns

  /** One row of the DataFrame: the parent and child strings, and the icon
    * strings of the icon columns when those are named and present. */
  datatype Row = Row(parentName: string, childName: string, parentIcon: Option<string>, childIcon: Option<string>)

  /** The state the module-level `addNode` threads through its calls
    * (`nextid`, `fullnamenodes`, `fullnames2id`), with the arguments that
    * stay the same for every call. Dicts are registered under their own
    * fullname. */
  class ColumnsTreeBuilder {
    const rootName: string
    const separator: string
    const iconsshow: bool
    const iconsfolder: bool
    const repeatParent: bool
    const disabled: seq<string>

    var nextid: int
    var fullnamenodes: map<string, Elem>
    var fullnames2id: map<string, int>
    ghost var keyOf: map<int, string>
    ghost var sub: map<string, set<int>>

    ghost predicate Core()
      reads this
    {
      RegistryCore(nextid, fullnamenodes, fullnames2id, keyOf) && FullnameKeyed(fullnamenodes) &&
      Forest(fullnamenodes, sub, nextid) && (!repeatParent ==> NoCopies(fullnamenodes))
    }

    ghost predicate Valid()
      reads this
    {
      Core() && rootName in fullnamenodes && fullnamenodes[rootName].id == 1
    }

    /** `getFullname(name, parent)`: a parent dict is never empty, so the
      * name is appended to the parent's fullname whenever there is one. */
    function FullnameOf(name: string, parent: Option<Elem>): string {
      if parent.Some? then parent.value.fullname + separator + name else name
    }

    /** The repeated-parent dict: the parent's name, under a fullname one
      * level below the parent. */
    function FirstElem(p: Elem, id: int): Node {
      Node(id, p.name, p.fullname + separator + p.name, p.fullname in disabled, None, false, false, [])
    }

    function NewElem(id: int, name: string, fullname: string, icon: Option<string>): Elem {
      ElemOf(id, name, fullname, fullname in disabled, if icon.Some? && |icon.value| > 0 then icon else None)
    }

    predicate Repeats(p: Elem) {
      !p.hasChildren && repeatParent && p.name != rootName
    }

    /** The start of `createTreeviewFromDF2Columns`: an empty root name
      * becomes 'Root', and the root is added with `iconroot`. */
    constructor (rootName: string, separator: string, iconsshow: bool, iconsfolder: bool, repeatParent: bool,
                 disabled: seq<string>, iconroot: Option<string>)
      ensures Valid()
      ensures this.rootName == (if |rootName| == 0 then "Root" else rootName)
      ensures this.separator == separator && this.iconsshow == iconsshow && this.iconsfolder == iconsfolder
      ensures this.repeatParent == repeatParent && this.disabled == disabled
      ensures nextid == 2 && fullnamenodes == map[this.rootName := NewElem(1, this.rootName, this.rootName, iconroot)]
      ensures fullnames2id == map[this.rootName := 1]
    {
      this.rootName := if |rootName| == 0 then "Root" else rootName;
      this.separator := separator;
      this.iconsshow := iconsshow;
      this.iconsfolder := iconsfolder;
      this.repeatParent := repeatParent;
      this.disabled := disabled;
      nextid := 1;
      fullnamenodes := map[];
      fullnames2id := map[];
      keyOf := map[];
      sub := map[];
      new;
      var root := AddNode(this.rootName, None, iconroot);
    }

    /** The module-level `addNode(name, parent, icon, ...)`, `parent` given by
      * its fullname: when the fullname is registered it returns that dict
      * and changes nothing (`nextid` included); otherwise it registers a new
      * dict with the next id, maps the fullname to it, and appends it to the
      * parent. The returned key is the fullname. */
    method AddNode(name: string, parent: Option<string>, icon: Option<string>) returns (key: string)
      requires Core()
      requires parent.Some? ==> parent.value in fullnamenodes
      modifies this
      ensures key == FullnameOf(name, if parent.Some? then Some(old(fullnamenodes)[parent.value]) else None)
      ensures key in fullnamenodes && fullnamenodes[key].fullname == key
      ensures key in old(fullnamenodes) ==>
                fullnamenodes == old(fullnamenodes) && fullnames2id == old(fullnames2id) && nextid == old(nextid)
      ensures key !in old(fullnamenodes) && parent.None? ==>
                fullnamenodes == old(fullnamenodes)[key := NewElem(old(nextid), name, key, icon)] &&
                fullnames2id == old(fullnames2id)[key := old(nextid)] && nextid == old(nextid) + 1
      ensures key !in old(fullnamenodes) && parent.Some? && Repeats(old(fullnamenodes)[parent.value]) ==>
                var p := old(fullnamenodes)[parent.value];
                fullnamenodes == old(fullnamenodes)[key := NewElem(old(nextid), name, key, icon)]
                                                   [parent.value := Attach(p, [Copy(FirstElem(p, old(nextid) + 1))], key, iconsshow && iconsfolder)] &&
                fullnames2id == old(fullnames2id)[key := old(nextid)][p.fullname + separator + p.name := old(nextid) + 1] &&
                nextid == old(nextid) + 2
      ensures key !in old(fullnamenodes) && parent.Some? && !Repeats(old(fullnamenodes)[parent.value]) ==>
                var p := old(fullnamenodes)[parent.value];
                fullnamenodes == old(fullnamenodes)[key := NewElem(old(nextid), name, key, icon)]
                                                   [parent.value := Attach(p, [], key, iconsshow && iconsfolder)] &&
                fullnames2id == old(fullnames2id)[key := old(nextid)] &&
                nextid == old(nextid) + 1
      ensures Core() && fullnamenodes.Keys == old(fullnamenodes).Keys + {key}
      ensures forall k :: k in old(fullnamenodes) ==> fullnamenodes[k].id == old(fullnamenodes)[k].id
    {
      key := FullnameOf(name, if parent.Some? then Some(fullnamenodes[parent.value]) else None);
      if key in fullnamenodes {
        assert NamedAt(fullnamenodes, key);
        return;
      }
      if parent.Some? {
        assert ArenaAt(fullnamenodes, nextid, parent.value);
      }
      Register(name, key, icon);
      if parent.Some? {
        assert fullnamenodes[parent.value] == old(fullnamenodes)[parent.value];
        AttachTo(parent.value, key);
      }
    }

    /** A new dict registered under its fullname, which is mapped to its id. */
    method Register(name: string, fullname: string, icon: Option<string>)
      requires Core() && fullname !in fullnamenodes
      modifies this
      ensures fullnamenodes == old(fullnamenodes)[fullname := NewElem(old(nextid), name, fullname, icon)]
      ensures fullnames2id == old(fullnames2id)[fullname := old(nextid)] && nextid == old(nextid) + 1
      ensures Core() && fullnamenodes.Keys == old(fullnamenodes).Keys + {fullname}
      ensures forall k :: k in old(fullnamenodes) ==> fullnamenodes[k].id == old(fullnamenodes)[k].id
      ensures forall k :: k in fullnamenodes && k != fullname ==> fullnamenodes[fullname].id !in sub[k]
    {
      var e := NewElem(nextid, name, fullname, icon);
      CoreAdd(nextid, fullnamenodes, fullnames2id, keyOf, fullname, e, fullname);
      ForestRegister(fullnamenodes, sub, nextid, fullname, e);
      if !repeatParent {
        NoCopiesAdd(fullnamenodes, fullname, e);
      }
      fullnamenodes, fullnames2id, keyOf, sub, nextid :=
        fullnamenodes[fullname := e], fullnames2id[fullname := nextid], keyOf[nextid := fullname], sub[fullname := {nextid}], nextid + 1;
    }

    /** The `if parent != None` block: as in the nested `addNode`, except
      * that the repeated parent's fullname and disabled test use the
      * parent's fullname. */
    method AttachTo(pk: string, key: string)
      requires Core()
      requires pk in fullnamenodes && key in fullnamenodes && fullnamenodes[pk].id < fullnamenodes[key].id
      requires !fullnamenodes[key].hasChildren
      requires forall k :: k in fullnamenodes && k != key ==> fullnamenodes[key].id !in sub[k]
      modifies this
      ensures var p := old(fullnamenodes)[pk];
              Repeats(p) ==>
                fullnamenodes == old(fullnamenodes)[pk := Attach(p, [Copy(FirstElem(p, old(nextid)))], key, iconsshow && iconsfolder)] &&
                fullnames2id == old(fullnames2id)[p.fullname + separator + p.name := old(nextid)] &&
                nextid == old(nextid) + 1
      ensures var p := old(fullnamenodes)[pk];
              !Repeats(p) ==>
                fullnamenodes == old(fullnamenodes)[pk := Attach(p, [], key, iconsshow && iconsfolder)] &&
                fullnames2id == old(fullnames2id) && nextid == old(nextid)
      ensures Core() && fullnamenodes.Keys == old(fullnamenodes).Keys
      ensures forall k :: k in old(fullnamenodes) ==> fullnamenodes[k].id == old(fullnamenodes)[k].id
    {
      var p := fullnamenodes[pk];
      var folder := iconsshow && iconsfolder;
      var f := p.fullname + separator + p.name;
      var first := if Repeats(p) then [Copy(FirstElem(p, nextid))] else [];
      var next := if Repeats(p) then nextid + 1 else nextid;
      var ids := if Repeats(p) then fullnames2id[f := nextid] else fullnames2id;
      CoreAttach(nextid, fullnamenodes, fullnames2id, keyOf, pk, key, first, folder, next, ids, f);
      ForestAttach(fullnamenodes, keyOf, sub, nextid, pk, key, first, folder, next);
      if !repeatParent {
        NoCopiesAttach(fullnamenodes, pk, key, folder);
      }
      fullnamenodes, fullnames2id, sub, nextid :=
        fullnamenodes[pk := Attach(p, first, key, folder)], ids,
        Grow(sub, p.id, AddedIds(fullnamenodes[key].id, first, nextid)), next;
    }

    /** One row: the parent string goes under the root, the child string
      * under the parent's dict. */
    method AddRow(row: Row)
      requires Valid()
      modifies this
      ensures Valid()
      ensures var pf := rootName + separator + row.parentName;
              fullnamenodes.Keys == old(fullnamenodes).Keys + {pf, pf + separator + row.childName}
      ensures forall k :: k in old(fullnamenodes) ==> fullnamenodes[k].id == old(fullnamenodes)[k].id
    {
      var parenticon := if iconsshow then row.parentIcon else None;
      var parent := AddBelow(row.parentName, rootName, parenticon);
      var icon := if iconsshow then row.childIcon else None;
      var elem := AddBelow(row.childName, parent, icon);
    }

    /** `addNode` below a registered dict, seen from the registry keys: the
      * key is the parent's fullname, the separator and the name. */
    method AddBelow(name: string, pk: string, icon: Option<string>) returns (key: string)
      requires Valid() && pk in fullnamenodes
      modifies this
      ensures Valid() && key == pk + separator + name
      ensures fullnamenodes.Keys == old(fullnamenodes).Keys + {key}
      ensures forall k :: k in old(fullnamenodes) ==> fullnamenodes[k].id == old(fullnamenodes)[k].id
    {
      assert NamedAt(fullnamenodes, pk);
      key := AddNode(name, Some(pk), icon);
    }

    /** The row loop. Afterwards the registry holds the root, one dict per
      * distinct parent and one per distinct (parent, child) pair. */
    method AddRows(rows: seq<Row>)
      requires Valid()
      modifies this
      ensures Valid()
      ensures fullnamenodes.Keys == old(fullnamenodes).Keys + RowKeys(rootName, separator, rows)
    {
      var i := 0;
      while i < |rows|
        invariant 0 <= i <= |rows| && Valid()
        invariant fullnamenodes.Keys == old(fullnamenodes).Keys + RowKeys(rootName, separator, rows[..i])
      {
        AddRow(rows[i]);
        assert rows[..i + 1][..i] == rows[..i];
        i := i + 1;
      }
      assert rows[..i] == rows;
    }
  }

  /** The fullnames the rows add below `root`: `root.parent` and
    * `root.parent.child` for every row. */
  function RowKeys(root: string, sep: string, rows: seq<Row>): set<string>
    decreases |rows|
  {
    if rows == [] then {}
    else
      var row := rows[|rows| - 1];
      var pf := root + sep + row.parentName;
      RowKeys(root, sep, rows[..|rows| - 1]) + {pf, pf + sep + row.childName}
  }

  /** `createTreeviewFromDF2Columns` up to the `CustomTreeview` it builds.
    * `select_all` selects the leaves of this tree (the list passed to
    * `calculateIdsOfLeaves` taken fresh); an unknown active name gives no
    * active node. */
  method CreateTreeviewFromDF2Columns(rows: seq<Row>, rootName: string, separator: string, iconsshow: bool,
                                      iconsfolder: bool, repeatParent: bool, disabled: seq<string>,
                                      iconroot: Option<string>, selectAll: bool, selected: seq<string>,
                                      openedNames: seq<string>, openedAll: bool, active: Option<string>)
    returns (b: ColumnsTreeBuilder, r: Built)
    ensures fresh(b) && b.Valid() && b.rootName == (if |rootName| == 0 then "Root" else rootName)
    ensures b.fullnamenodes.Keys == {b.rootName} + RowKeys(b.rootName, separator, rows)
    ensures var root := Materialize(b.fullnamenodes, b.nextid, b.rootName);
            UniqueIds(Preorder(root)) && TreeviewIndex.Ordered(Preorder(root)) &&
            TreeviewIndex.ParentsBelow(TreeviewIndex.IndexOf([root]).id2parentid)
    ensures !repeatParent ==> TreeviewIndex.DistinctFullnames(Preorder(Materialize(b.fullnamenodes, b.nextid, b.rootName)))
    ensures var root := Materialize(b.fullnamenodes, b.nextid, b.rootName);
            root.id == 1 &&
            r == Built([root], SelectedIds(selectAll, root, b.fullnames2id, selected),
                       OpenedIds(openedAll, b.fullnames2id, openedNames), ActiveIdOrNone(b.fullnames2id, active))
  {
    b := new ColumnsTreeBuilder(rootName, separator, iconsshow, iconsfolder, repeatParent, disabled, iconroot);
    b.AddRows(rows);
    var root := Materialize(b.fullnamenodes, b.nextid, b.rootName);
    MaterializeShape(b.fullnamenodes, b.sub, b.nextid, b.rootName);
    TreeviewIndex.OrderedParentsBelow(root);
    if !repeatParent {
      MaterializeBacked(b.fullnamenodes, b.nextid, b.rootName);
      BackedDistinct(b.fullnamenodes, Preorder(root));
    }
    r := Built([root], SelectedIds(selectAll, root, b.fullnames2id, selected),
               OpenedIds(openedAll, b.fullnames2id, openedNames), ActiveIdOrNone(b.fullnames2id, active));
  }
}
