/** `treeviewOperations` of `vois.vuetify.treeview`: the four index dicts of
  * the treeview items, the queries that read them (opened, selected and
  * active nodes, the children of a node) and the updates that rewrite the
  * treeview (opened and selected lists, the active node, the dynamic
  * replacement of a node's children). */
module TreeviewOps {
  import opened Wrappers
  import opened TreeNodes
  import opened MapFolds
  import opened TreeviewIndex

  /** The attributes of the `CustomTreeview` widget that the operations read
    * and write: `items`, `opened`, `current_open`, `selected`, `active` and
    * `current_active`. */
  datatype TreeviewState = TreeviewState(items: seq<Node>, openedIds: seq<int>, currentOpen: seq<int>,
                                         selected: seq<int>, active: Option<int>, currentActive: Option<int>)

  // ---------------------------------------------------------------- helpers on lists

  /** `[m[k] for k in ks]`, raising KeyError at the first missing key. */
  function LookupAll<K, V>(m: map<K, V>, ks: seq<K>): (r: Result<seq<V>>)
    ensures r.Ok? <==> forall k :: k in ks ==> k in m
    ensures r.Err? ==> r.error == KeyError
    ensures r.Ok? ==> |r.value| == |ks| && forall i :: 0 <= i < |ks| ==> r.value[i] == m[ks[i]]
  {
    if ks == [] then Ok([])
    else if ks[0] !in m then Err(KeyError)
    else
      var rest := LookupAll(m, ks[1..]);
      if rest.Err? then rest else Ok([m[ks[0]]] + rest.value)
  }

  /** Looking names up in a dict and the found ids up in its inverse gives
    * back the names: `getSelected()` after `setSelected(names)`. */
  lemma LookupRoundTrip(f2i: map<string, int>, i2f: map<int, string>, names: seq<string>, ids: seq<int>)
    requires forall f :: f in f2i ==> f2i[f] in i2f && i2f[f2i[f]] == f
    requires forall f :: f in names ==> f in f2i
    requires forall x :: x in ids <==> exists f :: f in names && f2i[f] == x
    ensures LookupAll(i2f, ids).Ok?
    ensures forall f :: f in LookupAll(i2f, ids).value <==> f in names
  {
    forall x | x in ids ensures x in i2f {
      var f :| f in names && f2i[f] == x;
    }
    var r := LookupAll(i2f, ids).value;
    forall f | f in r ensures f in names {
      var i :| 0 <= i < |r| && r[i] == f;
      assert |r| == |ids| && r[i] == i2f[ids[i]];
      var x := ids[i];
      assert x in ids;
      var g :| g in names && f2i[g] == x;
      assert i2f[f2i[g]] == g;
    }
    forall f | f in names ensures f in r {
      assert exists g :: g in names && f2i[g] == f2i[f];
      assert f2i[f] in ids;
      var i :| 0 <= i < |ids| && ids[i] == f2i[f];
    }
  }

  /** `list(set(s))`: the elements of `s`, each once. Python lists them in
    * the set's iteration order, which is left open here. */
  method Dedup(s: seq<int>) returns (r: seq<int>)
    ensures Distinct(r) && forall x :: x in r <==> x in s
  {
    r := [];
    var i := 0;
    while i < |s|
      invariant 0 <= i <= |s|
      invariant Distinct(r) && forall x :: x in r <==> x in s[..i]
    {
      if s[i] !in r {
        r := r + [s[i]];
      }
      i := i + 1;
    }
    assert s[..i] == s;
  }

  /** Some element of a non-empty set. */
  method Pick<K>(s: set<K>) returns (x: K)
    requires s != {}
    ensures x in s
  {
    x :| x in s;
  }

  /** `list(d.keys())`, in an order left open. */
  method KeysList<K, V>(m: map<K, V>) returns (r: seq<K>)
    ensures forall k :: k in r <==> k in m
  {
    r := [];
    var ks := m.Keys;
    while ks != {}
      invariant ks <= m.Keys
      invariant forall k :: k in m ==> (k in r <==> k !in ks)
      invariant forall k :: k in r ==> k in m
      decreases ks
    {
      var k := Pick(ks);
      r := r + [k];
      ks := ks - {k};
    }
  }

  /** `max(d.keys())` of a non-empty dict. */
  method MaxKey<V>(m: map<int, V>) returns (r: int)
    requires m.Keys != {}
    ensures r in m && forall k :: k in m ==> k <= r
  {
    var ks := m.Keys;
    var k0 := Pick(ks);
    r := k0;
    ks := ks - {k0};
    while ks != {}
      invariant ks <= m.Keys && r in m
      invariant forall k :: k in m && k !in ks ==> k <= r
      decreases ks
    {
      var k := Pick(ks);
      if k > r {
        r := k;
      }
      ks := ks - {k};
    }
  }

  // ---------------------------------------------------------------- queries

  /** `getActive()`: the fullname of the current active node, or None. */
  function GetActive(ix: Index, tv: TreeviewState): (r: Result<Option<string>>)
    ensures tv.currentActive.None? ==> r == Ok(None)
    ensures tv.currentActive.Some? ==>
              (r.Ok? <==> tv.currentActive.value in ix.id2fullname) &&
              (r.Ok? ==> r.value == Some(ix.id2fullname[tv.currentActive.value]))
  {
    match tv.currentActive
    case None => Ok(None)
    case Some(k) => if k in ix.id2fullname then Ok(Some(ix.id2fullname[k])) else Err(KeyError)
  }

  /** `getFirstChildFullname(fullname)` as written: it indexes the child list
    * with [0] even when the node's 'children' list is empty. */
  function FirstChildFullnameAsWritten(ix: Index, f: string): (r: Result<Option<string>>)
    ensures f !in ix.fullname2id ==> r == Ok(None)
    ensures f in ix.fullname2id && ix.fullname2id[f] in ix.id2childrenid && ix.id2childrenid[ix.fullname2id[f]] == [] ==>
              r == Err(IndexError)
  {
    if f in ix.fullname2id then
      var k := ix.fullname2id[f];
      if k in ix.id2childrenid then
        var kids := ix.id2childrenid[k];
        if |kids| == 0 then Err(IndexError)
        else if kids[0] in ix.id2fullname then Ok(Some(ix.id2fullname[kids[0]])) else Err(KeyError)
      else Ok(None)
    else Ok(None)
  }

  /** `getFirstChildFullname(fullname)` as its documentation promises: None
    * for an unknown node and for a node with no children. */
  function FirstChildFullname(ix: Index, f: string): (r: Result<Option<string>>)
    ensures f !in ix.fullname2id ==> r == Ok(None)
    ensures r.Ok? && r.value.Some? ==>
              var k := ix.fullname2id[f];
              k in ix.id2childrenid && |ix.id2childrenid[k]| > 0 && ix.id2childrenid[k][0] in ix.id2fullname &&
              ix.id2fullname[ix.id2childrenid[k][0]] == r.value.value
    ensures r.Err? ==> r.error == KeyError
  {
    if f in ix.fullname2id then
      var k := ix.fullname2id[f];
      if k in ix.id2childrenid && |ix.id2childrenid[k]| > 0 then
        var kid := ix.id2childrenid[k][0];
        if kid in ix.id2fullname then Ok(Some(ix.id2fullname[kid])) else Err(KeyError)
      else Ok(None)
    else Ok(None)
  }

  /** `getChildren(nodefullname)`: the fullnames of the child ids that the
    * search from the first item finds; [] for an unknown fullname. */
  function GetChildren(ix: Index, items: seq<Node>, f: string): (r: Result<seq<string>>)
    ensures f !in ix.fullname2id ==> r == Ok([])
    ensures f in ix.fullname2id && items == [] ==> r == Err(IndexError)
  {
    if f in ix.fullname2id then
      if |items| == 0 then Err(IndexError)
      else LookupAll(ix.id2fullname, ChildrenSearch(items[0], ix.fullname2id[f]))
    else Ok([])
  }

  // ---------------------------------------------------------------- setActive ancestors

  /** The parent ids the `while` loop of `setActive` collects: the parent of
    * the id, its parent, and so on until an id without a parent. */
  function AncestorChain(pm: map<int, int>, k: int): (r: seq<int>)
    requires ParentsBelow(pm)
    ensures forall x :: x in r ==> 0 <= x < k
    ensures k in pm <==> r != []
    decreases k
  {
    if k in pm then [pm[k]] + AncestorChain(pm, pm[k]) else []
  }

  /** The chain holds the parent of each of its own members: it is closed
    * under "parent of", so it lists every ancestor. */
  lemma {:induction false} AncestorChainClosed(pm: map<int, int>, k: int)
    requires ParentsBelow(pm)
    ensures k in pm ==> pm[k] in AncestorChain(pm, k)
    ensures forall x :: x in AncestorChain(pm, k) && x in pm ==> pm[x] in AncestorChain(pm, k)
    decreases k
  {
    if k in pm {
      AncestorChainClosed(pm, pm[k]);
    }
  }

  /** The chain has no repeated id: its ids strictly decrease. */
  lemma {:induction false} AncestorChainDistinct(pm: map<int, int>, k: int)
    requires ParentsBelow(pm)
    ensures Distinct(AncestorChain(pm, k))
    decreases k
  {
    if k in pm {
      var rest := AncestorChain(pm, pm[k]);
      AncestorChainDistinct(pm, pm[k]);
      forall j | 0 <= j < |rest| ensures rest[j] != pm[k] {
        assert rest[j] in rest;
      }
    }
  }

  /** The measure of the ancestor walk: 0 once it has ended. */
  function WalkMeasure(pm: map<int, int>, cur: Option<int>): nat
    requires ParentsBelow(pm)
  {
    match cur
    case None => 0
    case Some(k) => if k in pm then k + 2 else 1
  }

  // ---------------------------------------------------------------- the class

  class TreeviewOperations {
    var treeview: TreeviewState
    var id2fullname: map<int, string>
    var fullname2id: map<string, int>
    var id2parentid: map<int, int>
    var id2childrenid: map<int, seq<int>>

    function Idx(): Index
      reads this
    {
      Index(id2fullname, fullname2id, id2parentid, id2childrenid)
    }

    /** The dicts index the current items, as `doindex` leaves them. */
    predicate Valid()
      reads this
    {
      Idx() == IndexOf(treeview.items)
    }

    /** `treeviewOperations(treecard)`: takes the treeview and indexes it. */
    constructor (tv: TreeviewState)
      ensures treeview == tv && Valid()
    {
      treeview := tv;
      id2fullname, fullname2id, id2parentid, id2childrenid := map[], map[], map[], map[];
      new;
      DoIndex();
    }

    /** `doindex()`: clear the four dicts and index every item. */
    method DoIndex()
      modifies this
      ensures treeview == old(treeview) && Valid()
    {
      id2fullname, fullname2id, id2parentid, id2childrenid := map[], map[], map[], map[];
      var i := 0;
      while i < |treeview.items|
        invariant 0 <= i <= |treeview.items| && treeview == old(treeview)
        invariant IndexItems(Idx(), treeview.items[i..]) == IndexOf(treeview.items)
      {
        assert treeview.items[i..][1..] == treeview.items[i + 1..];
        IndexItem(treeview.items[i]);
        i := i + 1;
      }
      assert treeview.items[i..] == [];
    }

    /** `__indexItems(node)`. */
    method IndexItem(n: Node)
      modifies this
      ensures treeview == old(treeview) && Idx() == IndexNode(old(Idx()), n)
      decreases n
    {
      id2fullname := id2fullname[n.id := n.fullname];
      fullname2id := fullname2id[n.fullname := n.id];
      if n.hasChildren {
        id2childrenid := id2childrenid[n.id := []];
        ghost var start := Idx();
        var i := 0;
        while i < |n.children|
          invariant 0 <= i <= |n.children| && treeview == old(treeview)
          invariant n.id in id2childrenid
          invariant IndexKids(Idx(), n.id, n.children[i..]) == IndexKids(start, n.id, n.children)
        {
          var c := n.children[i];
          assert n.children[i..][1..] == n.children[i + 1..];
          id2parentid := id2parentid[c.id := n.id];
          id2childrenid := id2childrenid[n.id := id2childrenid[n.id] + [c.id]];
          IndexItem(c);
          i := i + 1;
        }
        assert n.children[i..] == [];
      }
    }

    /** `setOpened(fullnames)`: KeyError for an unknown fullname, otherwise
      * the opened list becomes the distinct ids of the fullnames. */
    method SetOpened(fullnames: seq<string>) returns (st: Status)
      modifies this
      ensures Idx() == old(Idx())
      ensures st.Success? <==> forall f :: f in fullnames ==> f in fullname2id
      ensures st.Failure? ==> st.error == KeyError && treeview == old(treeview)
      ensures st.Success? ==>
                treeview == old(treeview).(openedIds := treeview.openedIds) && Distinct(treeview.openedIds) &&
                forall x :: x in treeview.openedIds <==> exists f :: f in fullnames && fullname2id[f] == x
    {
      var ids := LookupAll(fullname2id, fullnames);
      if ids.Err? {
        return Failure(ids.error);
      }
      var op := Dedup(ids.value);
      treeview := treeview.(openedIds := op);
      st := Success;
      forall x | x in op ensures exists f :: f in fullnames && fullname2id[f] == x {
        var i :| 0 <= i < |ids.value| && ids.value[i] == x;
        assert fullnames[i] in fullnames;
      }
      forall f | f in fullnames ensures fullname2id[f] in op {
        var i :| 0 <= i < |fullnames| && fullnames[i] == f;
        assert ids.value[i] == fullname2id[f] && ids.value[i] in ids.value;
      }
    }

    /** `setSelected(fullnames)`: as `setOpened`, for the selected list. */
    method SetSelected(fullnames: seq<string>) returns (st: Status)
      modifies this
      ensures Idx() == old(Idx())
      ensures st.Success? <==> forall f :: f in fullnames ==> f in fullname2id
      ensures st.Failure? ==> st.error == KeyError && treeview == old(treeview)
      ensures st.Success? ==>
                treeview == old(treeview).(selected := treeview.selected) && Distinct(treeview.selected) &&
                forall x :: x in treeview.selected <==> exists f :: f in fullnames && fullname2id[f] == x
    {
      var ids := LookupAll(fullname2id, fullnames);
      if ids.Err? {
        return Failure(ids.error);
      }
      var sel := Dedup(ids.value);
      treeview := treeview.(selected := sel);
      st := Success;
      forall x | x in sel ensures exists f :: f in fullnames && fullname2id[f] == x {
        var i :| 0 <= i < |ids.value| && ids.value[i] == x;
        assert fullnames[i] in fullnames;
      }
      forall f | f in fullnames ensures fullname2id[f] in sel {
        var i :| 0 <= i < |fullnames| && fullnames[i] == f;
        assert ids.value[i] == fullname2id[f] && ids.value[i] in ids.value;
      }
    }

    /** `openAll()`: every indexed id becomes opened. */
    method OpenAll()
      modifies this
      ensures Idx() == old(Idx())
      ensures treeview == old(treeview).(openedIds := treeview.openedIds) && Distinct(treeview.openedIds)
      ensures forall x :: x in treeview.openedIds <==> x in fullname2id.Values
    {
      var names := KeysList(fullname2id);
      var st := SetOpened(names);
      forall x | x in fullname2id.Values ensures x in treeview.openedIds {
        var f :| f in fullname2id && fullname2id[f] == x;
        assert f in names;
      }
    }

    /** `setActive(fullname)`: for a known fullname, make its node active and
      * open its ancestors and node 1, keeping the opened nodes; an unknown
      * fullname changes nothing. The parent ids must decrease (as they do
      * for the trees both builders make, as `CreateTreeviewFromList` and
      * `CreateTreeviewFromDF2Columns` ensure and `SetChildren` keeps) for the
      * walk to end. */
    method SetActive(fullname: string)
      requires ParentsBelow(id2parentid)
      modifies this
      ensures Idx() == old(Idx())
      ensures fullname !in fullname2id ==> treeview == old(treeview)
      ensures fullname in fullname2id ==>
                var k := fullname2id[fullname];
                treeview == old(treeview).(openedIds := treeview.openedIds, active := Some(k), currentActive := Some(k)) &&
                Distinct(treeview.openedIds) &&
                forall x :: x in treeview.openedIds <==> x in old(treeview.openedIds) || x in AncestorChain(id2parentid, k) || x == 1
    {
      if fullname in fullname2id {
        var nodeid := fullname2id[fullname];
        treeview := treeview.(active := Some(nodeid), currentActive := Some(nodeid));
        var idparents := [];
        var cur := Some(nodeid);
        while cur.Some?
          invariant cur.Some? ==> idparents + AncestorChain(id2parentid, cur.value) == AncestorChain(id2parentid, nodeid)
          invariant cur.None? ==> idparents == AncestorChain(id2parentid, nodeid)
          decreases WalkMeasure(id2parentid, cur)
        {
          if cur.value in id2parentid {
            var p := id2parentid[cur.value];
            cur := Some(p);
            idparents := idparents + [p];
          } else {
            cur := None;
          }
        }
        if 1 !in idparents {
          idparents := idparents + [1];
        }
        var op := Dedup(treeview.openedIds + idparents);
        treeview := treeview.(openedIds := op);
      }
    }

    /** `setChildren(nodefullname, childrenfullnames)`: for a known fullname,
      * give the children consecutive ids from one past the largest id, put
      * them as the child list of every dict carrying the node's id in a copy
      * of the first item, make that copy the only item and reindex. An
      * unknown fullname changes nothing. */
    method SetChildren(nodefullname: string, childrenfullnames: seq<string>)
      requires Valid()
      modifies this
      ensures Valid()
      ensures nodefullname !in old(fullname2id) ==> treeview == old(treeview) && Idx() == old(Idx())
      ensures nodefullname in old(fullname2id) ==>
                old(treeview.items) != [] &&
                exists nextid :: nextid - 1 in old(id2fullname) && (forall k :: k in old(id2fullname) ==> k < nextid) &&
                  (forall c :: c in ChildDicts(nextid, childrenfullnames) ==> c.id != old(fullname2id)[nodefullname]) &&
                  treeview == old(treeview).(items := [ReplaceChildren(old(treeview.items)[0], old(fullname2id)[nodefullname],
                                                                       ChildDicts(nextid, childrenfullnames))])
      ensures old(|treeview.items| == 1 && 0 <= treeview.items[0].id && Ordered(Preorder(treeview.items[0]))) ==>
                |treeview.items| == 1 && 0 <= treeview.items[0].id && Ordered(Preorder(treeview.items[0])) &&
                ParentsBelow(id2parentid)
    {
      if nodefullname in fullname2id {
        var nodeid := fullname2id[nodefullname];
        DoIndexIdsKnown(treeview.items);
        var top := MaxKey(id2fullname);
        var nextid := 1 + top;
        var children := MakeChildren(nextid, childrenfullnames);
        if treeview.items == [] {
          assert false;
        }
        var root := ReplaceChildren(treeview.items[0], nodeid, children);
        ghost var ordered := |treeview.items| == 1 && 0 <= treeview.items[0].id && Ordered(Preorder(treeview.items[0]));
        treeview := treeview.(items := [root]);
        DoIndex();
        if ordered {
          ReplaceOrdered(old(treeview.items)[0], nodeid, children);
          OrderedParentsBelow(root);
        }
        assert nextid - 1 in old(id2fullname) && forall c :: c in ChildDicts(nextid, childrenfullnames) ==> c.id != nodeid;
      } else if |treeview.items| == 1 && 0 <= treeview.items[0].id && Ordered(Preorder(treeview.items[0])) {
        OrderedParentsBelow(treeview.items[0]);
        assert treeview.items == [treeview.items[0]];
      }
    }
  }

  /** The child dicts `setChildren` builds: ids counting up from `nextid`,
    * name and fullname each the given fullname, no 'children' key. */
  function ChildDicts(nextid: int, names: seq<string>): (r: seq<Node>)
    ensures |r| == |names|
    ensures forall i :: 0 <= i < |names| ==> r[i] == Plain(nextid + i, names[i], names[i])
  {
    seq(|names|, i requires 0 <= i < |names| => Plain(nextid + i, names[i], names[i]))
  }

  /** The loop of `setChildren` that builds the child dicts. */
  method MakeChildren(nextid: int, names: seq<string>) returns (children: seq<Node>)
    ensures children == ChildDicts(nextid, names)
  {
    children := [];
    var id := nextid;
    var i := 0;
    while i < |names|
      invariant 0 <= i <= |names| && id == nextid + i
      invariant children == ChildDicts(nextid, names[..i])
    {
      children := children + [Plain(id, names[i], names[i])];
      id := id + 1;
      i := i + 1;
    }
    assert names[..i] == names;
  }

  // ---------------------------------------------------------------- what the queries return

  /** The fullnames of a dict's children, [] without a 'children' key. */
  function ChildFullnames(m: Node): (r: seq<string>)
    ensures m.hasChildren ==> |r| == |m.children| && forall i :: 0 <= i < |r| ==> r[i] == m.children[i].fullname
    ensures !m.hasChildren ==> r == []
  {
    if m.hasChildren then seq(|m.children|, i requires 0 <= i < |m.children| => m.children[i].fullname) else []
  }

  /** `getSelected()` after a successful `setSelected(names)` on an indexed
    * tree with unique ids gives back exactly the names (in some order). */
  lemma SelectedRoundTrip(items: seq<Node>, names: seq<string>, ids: seq<int>)
    requires UniqueIds(PreorderSeq(items))
    requires forall f :: f in names ==> f in IndexOf(items).fullname2id
    requires forall x :: x in ids <==> exists f :: f in names && IndexOf(items).fullname2id[f] == x
    ensures LookupAll(IndexOf(items).id2fullname, ids).Ok?
    ensures forall f :: f in LookupAll(IndexOf(items).id2fullname, ids).value <==> f in names
  {
    DoIndexInverseBack(items);
    LookupRoundTrip(IndexOf(items).fullname2id, IndexOf(items).id2fullname, names, ids);
  }

  /** On an indexed single-root tree with unique ids and fullnames,
    * `getChildren` of a dict's fullname lists its children's fullnames. */
  lemma GetChildrenOfNode(root: Node, m: Node)
    requires UniqueIds(Preorder(root)) && DistinctFullnames(Preorder(root))
    requires m in Preorder(root)
    ensures GetChildren(IndexOf([root]), [root], m.fullname) == Ok(ChildFullnames(m))
  {
    var ix := IndexOf([root]);
    assert PreorderSeq([root]) == Preorder(root);
    DoIndexByName([root]);
    DoIndexNames([root]);
    ChildrenSearchFinds(root, m);
    var ids := ChildIds(m);
    forall i | 0 <= i < |ids| ensures ids[i] in ix.id2fullname && ix.id2fullname[ids[i]] == ChildFullnames(m)[i] {
      ChildInPreorder(root, m, m.children[i]);
    }
    var res := LookupAll(ix.id2fullname, ids);
    assert res.Ok?;
    assert res.value == ChildFullnames(m);
  }

  /** On such a tree, the corrected `getFirstChildFullname` gives the first
    * child's fullname, or None for a dict with no children. */
  lemma FirstChildOfNode(root: Node, m: Node)
    requires UniqueIds(Preorder(root)) && DistinctFullnames(Preorder(root))
    requires m in Preorder(root)
    ensures FirstChildFullname(IndexOf([root]), m.fullname) ==
              Ok(if m.hasChildren && m.children != [] then Some(m.children[0].fullname) else None)
  {
    assert PreorderSeq([root]) == Preorder(root);
    DoIndexByName([root]);
    DoIndexNames([root]);
    DoIndexChildren(root);
    if m.hasChildren && m.children != [] {
      ChildInPreorder(root, m, m.children[0]);
    }
  }

  /** After the replacement, the replaced dict is the only one with its
    * fullname, so the new `fullname2id` still gives its id. */
  lemma ReplacedFullnameKept(root: Node, m: Node, cs: seq<Node>)
    requires UniqueIds(Preorder(root)) && DistinctFullnames(Preorder(root)) && m in Preorder(root)
    requires forall c :: c in cs ==> c.id != m.id && !c.hasChildren && c.fullname != m.fullname
    ensures var r := ReplaceChildren(root, m.id, cs);
            exists x :: x in Preorder(r) && x.id == m.id && x.fullname == m.fullname && x.hasChildren && x.children == cs
    ensures var r := ReplaceChildren(root, m.id, cs);
            m.fullname in IndexOf([r]).fullname2id && IndexOf([r]).fullname2id[m.fullname] == m.id
  {
    var s := Preorder(root);
    var k := m.id;
    var r := ReplaceChildren(root, k, cs);
    var s' := Preorder(r);
    assert PreorderSeq([r]) == s';
    ReplaceKeepsId2Name(root, k, cs);
    Id2NameFinds(root, k);
    Id2NameFinds(r, k);
    var x :| x in s' && x.id == k && x.fullname == Id2Name(r, k).value;
    var y :| y in s && y.id == k && y.fullname == Id2Name(root, k).value;
    assert y == m by {
      var i :| 0 <= i < |s| && s[i] == y;
      var j :| 0 <= j < |s| && s[j] == m;
      assert i == j;
    }
    ReplaceMatches(root, k, cs, x);
    forall z | z in s' && z.fullname == m.fullname ensures z.id == k {
      ReplaceFrom(root, k, cs, z);
      var w :| w in s && w.id == z.id && w.fullname == z.fullname;
      var i :| 0 <= i < |s| && s[i] == w;
      var j :| 0 <= j < |s| && s[j] == m;
      assert i == j;
    }
    DoIndexFullnameAgreed([r], m.fullname, k);
  }

  /** After the replacement, each new child id carries only its own
    * fullname, so the new `id2fullname` gives it. */
  lemma ReplacedChildNames(root: Node, m: Node, names: seq<string>, nextid: int)
    requires m in Preorder(root) && forall x :: x in Preorder(root) ==> x.id < nextid
    ensures var cs := ChildDicts(nextid, names);
            var r := ReplaceChildren(root, m.id, cs);
            (exists x :: x in Preorder(r) && x.id == m.id && x.hasChildren && x.children == cs) ==>
            forall i :: 0 <= i < |cs| ==> cs[i].id in IndexOf([r]).id2fullname && IndexOf([r]).id2fullname[cs[i].id] == names[i]
  {
    var cs := ChildDicts(nextid, names);
    var r := ReplaceChildren(root, m.id, cs);
    var s' := Preorder(r);
    assert PreorderSeq([r]) == s';
    if x :| x in s' && x.id == m.id && x.hasChildren && x.children == cs {
      forall i | 0 <= i < |cs| ensures cs[i].id in IndexOf([r]).id2fullname && IndexOf([r]).id2fullname[cs[i].id] == names[i] {
        ChildInPreorder(r, x, cs[i]);
        forall z | z in s' && z.id == cs[i].id ensures z.fullname == names[i] {
          ReplaceFrom(root, m.id, cs, z);
          if z in cs {
            var j :| 0 <= j < |cs| && cs[j] == z;
          }
        }
        DoIndexIdAgreed([r], cs[i].id, names[i]);
      }
    }
  }

  /** The replacement keeps parent ids below child ids when the new
    * children's ids are above the replaced id: an ordered tree with a
    * non-negative root stays ordered. */
  lemma {:induction false} ReplaceOrdered(n: Node, id: int, cs: seq<Node>)
    requires forall c :: c in cs ==> c.id != id && !c.hasChildren
    requires forall c :: c in cs ==> id < c.id
    requires 0 <= n.id && Ordered(Preorder(n))
    ensures Ordered(Preorder(ReplaceChildren(n, id, cs)))
    decreases n, 1
  {
    var r := ReplaceChildren(n, id, cs);
    if n.id == id {
      PreorderSeqPlain(cs);
      assert Preorder(r) == [r] + cs;
    } else if n.hasChildren {
      assert Ordered(PreorderSeq(n.children)) by {
        forall m | m in PreorderSeq(n.children) ensures m in Preorder(n) { }
      }
      forall c | c in n.children ensures 0 <= c.id {
        assert n in Preorder(n);
      }
      ReplaceSeqOrdered(n.children, id, cs);
      ReplaceSeqIds(n.children, id, cs);
      forall c | c in r.children ensures n.id < c.id {
        var i :| 0 <= i < |r.children| && r.children[i] == c;
        assert n in Preorder(n) && n.children[i] in n.children;
      }
    }
  }

  lemma {:induction false} ReplaceSeqOrdered(ns: seq<Node>, id: int, cs: seq<Node>)
    requires forall c :: c in cs ==> c.id != id && !c.hasChildren
    requires forall c :: c in cs ==> id < c.id
    requires (forall c :: c in ns ==> 0 <= c.id) && Ordered(PreorderSeq(ns))
    ensures Ordered(PreorderSeq(ReplaceSeq(ns, id, cs)))
    decreases ns, 0
  {
    if ns != [] {
      var rs := ReplaceSeq(ns, id, cs);
      assert rs[0] == ReplaceChildren(ns[0], id, cs) && rs[1..] == ReplaceSeq(ns[1..], id, cs);
      assert PreorderSeq(ns) == Preorder(ns[0]) + PreorderSeq(ns[1..]);
      ReplaceOrdered(ns[0], id, cs);
      ReplaceSeqOrdered(ns[1..], id, cs);
      assert PreorderSeq(rs) == Preorder(rs[0]) + PreorderSeq(rs[1..]);
    }
  }

  /** The replacement keeps each top-level dict's id. */
  lemma {:induction false} ReplaceSeqIds(ns: seq<Node>, id: int, cs: seq<Node>)
    requires forall c :: c in cs ==> c.id != id && !c.hasChildren
    ensures forall i :: 0 <= i < |ns| ==> ReplaceSeq(ns, id, cs)[i].id == ns[i].id
    decreases ns
  {
    if ns != [] {
      var rs := ReplaceSeq(ns, id, cs);
      assert rs[0] == ReplaceChildren(ns[0], id, cs) && rs[1..] == ReplaceSeq(ns[1..], id, cs);
      ReplaceSeqIds(ns[1..], id, cs);
      forall i | 1 <= i < |ns| ensures rs[i].id == ns[i].id {
        assert rs[i] == rs[1..][i - 1];
      }
    }
  }

  /** `setChildren(f, names)` followed by `getChildren(f)` gives back the
    * names, when the tree has unique ids and fullnames, `f` is the fullname
    * of one of its dicts, the new names do not include `f` and the new ids
    * are above the old ones. */
  lemma SetChildrenThenGetChildren(root: Node, m: Node, names: seq<string>, nextid: int)
    requires UniqueIds(Preorder(root)) && DistinctFullnames(Preorder(root))
    requires m in Preorder(root) && m.fullname !in names
    requires forall x :: x in Preorder(root) ==> x.id < nextid
    ensures m.fullname in IndexOf([root]).fullname2id && IndexOf([root]).fullname2id[m.fullname] == m.id
    ensures var r := ReplaceChildren(root, m.id, ChildDicts(nextid, names));
            GetChildren(IndexOf([r]), [r], m.fullname) == Ok(names)
  {
    assert PreorderSeq([root]) == Preorder(root);
    DoIndexByName([root]);
    var cs := ChildDicts(nextid, names);
    var r := ReplaceChildren(root, m.id, cs);
    ReplacedFullnameKept(root, m, cs);
    ReplacedChildNames(root, m, names, nextid);
    ReplaceSearch(root, m.id, cs);
    var res := LookupAll(IndexOf([r]).id2fullname, IdsOf(cs));
    assert res.value == names;
  }

  /** The root has no ancestor chain on an indexed tree with unique ids. */
  lemma AncestorChainOfRoot(root: Node)
    requires UniqueIds(Preorder(root)) && Ordered(Preorder(root))
    ensures ParentsBelow(IndexOf([root]).id2parentid)
    ensures AncestorChain(IndexOf([root]).id2parentid, root.id) == []
  {
    OrderedParentsBelow(root);
    DoIndexParents(root);
  }

  /** The ancestor chain of a child is its parent followed by the parent's
    * chain, on an indexed tree with unique, growing ids. */
  lemma AncestorChainOfChild(root: Node, m: Node, c: Node)
    requires UniqueIds(Preorder(root)) && Ordered(Preorder(root))
    requires m in Preorder(root) && m.hasChildren && c in m.children
    ensures ParentsBelow(IndexOf([root]).id2parentid)
    ensures AncestorChain(IndexOf([root]).id2parentid, c.id) ==
              [m.id] + AncestorChain(IndexOf([root]).id2parentid, m.id)
  {
    OrderedParentsBelow(root);
    DoIndexParents(root);
  }

  /** `setChildren('A', [])` followed by `getFirstChildFullname('A')`: the
    * dict now has an empty child list, and the source raises IndexError. */
  lemma EmptyChildrenFirstChildRaises()
    ensures var root := Node(1, "Root", "Root", false, None, false, true, [Plain(2, "A", "A")]);
            var r := ReplaceChildren(root, 2, ChildDicts(3, []));
            FirstChildFullnameAsWritten(IndexOf([r]), "A") == Err(IndexError) &&
            FirstChildFullname(IndexOf([r]), "A") == Ok(None)
  {
    var root := Node(1, "Root", "Root", false, None, false, true, [Plain(2, "A", "A")]);
    var a := Node(2, "A", "A", false, None, false, true, []);
    assert ChildDicts(3, []) == [];
    var r := ReplaceChildren(root, 2, []);
    assert ReplaceSeq([Plain(2, "A", "A")], 2, []) == [a];
    assert r == root.(children := [a]);
    IndexOfSingle(r);
    var e := EmptyIndex;
    var ix0 := e.(id2fullname := e.id2fullname[1 := "Root"], fullname2id := e.fullname2id["Root" := 1]);
    var ix1 := ix0.(id2childrenid := ix0.id2childrenid[1 := []]);
    var ix2 := ix1.(id2parentid := ix1.id2parentid[2 := 1], id2childrenid := ix1.id2childrenid[1 := ix1.id2childrenid[1] + [2]]);
    var ix3 := ix2.(id2fullname := ix2.id2fullname[2 := "A"], fullname2id := ix2.fullname2id["A" := 2]);
    var ix4 := ix3.(id2childrenid := ix3.id2childrenid[2 := []]);
    assert IndexKids(ix4, 2, []) == ix4;
    assert IndexNode(ix2, a) == ix4;
    assert [a][1..] == [];
    assert IndexKids(ix4, 1, []) == ix4;
    assert IndexKids(ix1, 1, [a]) == ix4;
    assert IndexNode(EmptyIndex, r) == ix4;
  }
}
