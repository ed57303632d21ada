/** The four index dicts that `treeviewOperations.doindex` of
  * `vois.vuetify.treeview` rebuilds from the treeview items, as functions of
  * the items, and what they hold afterwards. */
module TreeviewIndex {
  import opened Wrappers
  import opened TreeNodes
  import opened MapFolds

  /** The four dicts `id2fullname`, `fullname2id`, `id2parentid`, `id2childrenid`. */
  datatype Index = Index(id2fullname: map<int, string>, fullname2id: map<string, int>,
                         id2parentid: map<int, int>, id2childrenid: map<int, seq<int>>)

  const EmptyIndex := Index(map[], map[], map[], map[])

  // ---------------------------------------------------------------- __indexItems

  /** `__indexItems(node)`: record id and fullname both ways; for a dict with
    * a 'children' key start an empty child list and then, child by child,
    * record the parent, append the child id and index the child. */
  function IndexNode(ix: Index, n: Node): (r: Index)
    ensures ix.id2childrenid.Keys <= r.id2childrenid.Keys
    decreases n
  {
    var ix1 := ix.(id2fullname := ix.id2fullname[n.id := n.fullname],
                   fullname2id := ix.fullname2id[n.fullname := n.id]);
    if n.hasChildren then IndexKids(ix1.(id2childrenid := ix1.id2childrenid[n.id := []]), n.id, n.children)
    else ix1
  }

  /** One child `c` of `p` recorded: its parent id, and its id appended
    * to the parent's list. */
  function LinkChild(ix: Index, p: int, c: Node): (r: Index)
    requires p in ix.id2childrenid
    ensures r.id2fullname == ix.id2fullname && r.fullname2id == ix.fullname2id
    ensures r.id2parentid == ix.id2parentid[c.id := p]
    ensures r.id2childrenid == ix.id2childrenid[p := ix.id2childrenid[p] + [c.id]]
  {
    ix.(id2parentid := ix.id2parentid[c.id := p],
        id2childrenid := ix.id2childrenid[p := ix.id2childrenid[p] + [c.id]])
  }

  /** The `for n in node['children']` loop of `__indexItems`. */
  function IndexKids(ix: Index, p: int, cs: seq<Node>): (r: Index)
    requires p in ix.id2childrenid
    ensures ix.id2childrenid.Keys <= r.id2childrenid.Keys
    decreases cs
  {
    if cs == [] then ix
    else
      var c := cs[0];
      var ix1 := LinkChild(ix, p, c);
      IndexKids(IndexNode(ix1, c), p, cs[1..])
  }

  /** `doindex()`: clear the dicts and index every top-level item. */
  function IndexItems(ix: Index, items: seq<Node>): Index
    decreases |items|
  {
    if items == [] then ix else IndexItems(IndexNode(ix, items[0]), items[1..])
  }

  function IndexOf(items: seq<Node>): Index {
    IndexItems(EmptyIndex, items)
  }

  lemma IndexOfSingle(root: Node)
    ensures IndexOf([root]) == IndexNode(EmptyIndex, root)
  {
    assert [root][1..] == [];
    assert IndexItems(IndexNode(EmptyIndex, root), []) == IndexNode(EmptyIndex, root);
  }

  lemma {:induction false} IndexItemsSnoc(ix: Index, items: seq<Node>, n: Node)
    ensures IndexItems(ix, items + [n]) == IndexNode(IndexItems(ix, items), n)
    decreases |items|
  {
    if items == [] {
      assert items + [n] == [n];
    } else {
      assert (items + [n])[1..] == items[1..] + [n];
      IndexItemsSnoc(IndexNode(ix, items[0]), items[1..], n);
    }
  }

  // ---------------------------------------------------------------- the index as dict folds

  /** The (id, fullname) pairs of a walk, in walk order. */
  function NamePairs(s: seq<Node>): (r: seq<(int, string)>)
    ensures |r| == |s| && forall i :: 0 <= i < |s| ==> r[i] == (s[i].id, s[i].fullname)
  {
    seq(|s|, i requires 0 <= i < |s| => (s[i].id, s[i].fullname))
  }

  lemma NamePairsConcat(a: seq<Node>, b: seq<Node>)
    ensures NamePairs(a + b) == NamePairs(a) + NamePairs(b)
  {
    assert |NamePairs(a + b)| == |NamePairs(a) + NamePairs(b)|;
    forall i | 0 <= i < |a + b| ensures NamePairs(a + b)[i] == (NamePairs(a) + NamePairs(b))[i] {
      if i >= |a| { assert (a + b)[i] == b[i - |a|]; }
    }
  }

  lemma SwapConcat<K, V>(a: seq<(K, V)>, b: seq<(K, V)>)
    ensures Swap(a + b) == Swap(a) + Swap(b)
  {
    assert |Swap(a + b)| == |Swap(a) + Swap(b)|;
    forall i | 0 <= i < |a + b| ensures Swap(a + b)[i] == (Swap(a) + Swap(b))[i] {
      if i >= |a| { assert (a + b)[i] == b[i - |a|]; }
    }
  }

  /** The (child id, parent id) pairs `__indexItems` writes, in writing order. */
  function ParentPairs(n: Node): seq<(int, int)>
    decreases n
  {
    if n.hasChildren then ParentPairsKids(n.id, n.children) else []
  }

  function ParentPairsKids(p: int, cs: seq<Node>): seq<(int, int)>
    decreases cs
  {
    if cs == [] then [] else [(cs[0].id, p)] + ParentPairs(cs[0]) + ParentPairsKids(p, cs[1..])
  }

  /** `id2fullname` and `fullname2id` are the dict folds of the walk's
    * (id, fullname) pairs and of the swapped pairs, and `id2parentid` the
    * fold of the parent pairs: later dicts overwrite earlier ones. */
  lemma {:induction false} IndexNodeFolds(ix: Index, n: Node)
    ensures IndexNode(ix, n).id2fullname == UpdAll(ix.id2fullname, NamePairs(Preorder(n)))
    ensures IndexNode(ix, n).fullname2id == UpdAll(ix.fullname2id, Swap(NamePairs(Preorder(n))))
    ensures IndexNode(ix, n).id2parentid == UpdAll(ix.id2parentid, ParentPairs(n))
    decreases n, 1
  {
    var ix1 := ix.(id2fullname := ix.id2fullname[n.id := n.fullname],
                   fullname2id := ix.fullname2id[n.fullname := n.id]);
    var rest := if n.hasChildren then PreorderSeq(n.children) else [];
    assert Preorder(n) == [n] + rest;
    NamePairsConcat([n], rest);
    SwapConcat(NamePairs([n]), NamePairs(rest));
    UpdAllConcat(ix.id2fullname, NamePairs([n]), NamePairs(rest));
    UpdAllConcat(ix.fullname2id, Swap(NamePairs([n])), Swap(NamePairs(rest)));
    if n.hasChildren {
      IndexKidsFolds(ix1.(id2childrenid := ix1.id2childrenid[n.id := []]), n.id, n.children);
    }
  }

  lemma {:induction false} IndexKidsFolds(ix: Index, p: int, cs: seq<Node>)
    requires p in ix.id2childrenid
    ensures IndexKids(ix, p, cs).id2fullname == UpdAll(ix.id2fullname, NamePairs(PreorderSeq(cs)))
    ensures IndexKids(ix, p, cs).fullname2id == UpdAll(ix.fullname2id, Swap(NamePairs(PreorderSeq(cs))))
    ensures IndexKids(ix, p, cs).id2parentid == UpdAll(ix.id2parentid, ParentPairsKids(p, cs))
    decreases cs, 0
  {
    if cs != [] {
      var c := cs[0];
      var ix1 := LinkChild(ix, p, c);
      var ix2 := IndexNode(ix1, c);
      IndexNodeFolds(ix1, c);
      IndexKidsFolds(ix2, p, cs[1..]);
      NamePairsConcat(Preorder(c), PreorderSeq(cs[1..]));
      SwapConcat(NamePairs(Preorder(c)), NamePairs(PreorderSeq(cs[1..])));
      UpdAllConcat(ix.id2fullname, NamePairs(Preorder(c)), NamePairs(PreorderSeq(cs[1..])));
      UpdAllConcat(ix.fullname2id, Swap(NamePairs(Preorder(c))), Swap(NamePairs(PreorderSeq(cs[1..]))));
      UpdAllConcat(ix.id2parentid, [(c.id, p)] + ParentPairs(c), ParentPairsKids(p, cs[1..]));
      UpdAllConcat(ix.id2parentid, [(c.id, p)], ParentPairs(c));
      assert UpdAll(ix.id2parentid, [(c.id, p)]) == ix.id2parentid[c.id := p];
    }
  }

  // ---------------------------------------------------------------- id2childrenid

  /** No dict of the walk carries id `k`. */
  predicate NoId(s: seq<Node>, k: int) {
    forall m :: m in s ==> m.id != k
  }

  /** A walk of children without id `k` splits into the first child, which
    * is not `k`, its walk and the walk of the others, none carrying `k`. */
  lemma NoIdCons(cs: seq<Node>, k: int)
    requires cs != [] && NoId(PreorderSeq(cs), k)
    ensures cs[0].id != k && NoId(Preorder(cs[0]), k) && NoId(PreorderSeq(cs[1..]), k)
  {
    assert PreorderSeq(cs) == Preorder(cs[0]) + PreorderSeq(cs[1..]);
    assert cs[0] in Preorder(cs[0]);
  }

  /** Indexing a subtree that does not carry `k` leaves entry `k` of
    * `id2childrenid` as it was, present or absent. */
  lemma {:induction false} IndexNodeChildFrame(ix: Index, n: Node, k: int)
    requires NoId(Preorder(n), k)
    ensures k in IndexNode(ix, n).id2childrenid <==> k in ix.id2childrenid
    ensures k in ix.id2childrenid ==> IndexNode(ix, n).id2childrenid[k] == ix.id2childrenid[k]
    decreases n, 1
  {
    if n.hasChildren {
      var ix1 := ix.(id2fullname := ix.id2fullname[n.id := n.fullname],
                     fullname2id := ix.fullname2id[n.fullname := n.id]);
      IndexKidsChildFrame(ix1.(id2childrenid := ix1.id2childrenid[n.id := []]), n.id, n.children, k);
    }
  }

  lemma {:induction false} IndexKidsChildFrame(ix: Index, p: int, cs: seq<Node>, k: int)
    requires p in ix.id2childrenid && p != k && NoId(PreorderSeq(cs), k)
    ensures k in IndexKids(ix, p, cs).id2childrenid <==> k in ix.id2childrenid
    ensures k in ix.id2childrenid ==> IndexKids(ix, p, cs).id2childrenid[k] == ix.id2childrenid[k]
    decreases cs, 0
  {
    if cs != [] {
      var c := cs[0];
      var ix1 := LinkChild(ix, p, c);
      IndexNodeChildFrame(ix1, c, k);
      IndexKidsChildFrame(IndexNode(ix1, c), p, cs[1..], k);
    }
  }

  /** When no descendant carries the parent's id, the loop appends exactly
    * the child ids, in order, to the parent's list. */
  lemma {:induction false} IndexKidsAppends(ix: Index, p: int, cs: seq<Node>)
    requires p in ix.id2childrenid && NoId(PreorderSeq(cs), p)
    ensures IndexKids(ix, p, cs).id2childrenid[p] == ix.id2childrenid[p] + IdsOf(cs)
    decreases cs
  {
    if cs == [] {
      assert IdsOf(cs) == [];
    } else {
      var c := cs[0];
      var ix1 := LinkChild(ix, p, c);
      var ix2 := IndexNode(ix1, c);
      NoIdCons(cs, p);
      calc {
        IndexKids(ix, p, cs).id2childrenid[p];
        IndexKids(ix2, p, cs[1..]).id2childrenid[p];
        { IndexKidsAppends(ix2, p, cs[1..]); }
        ix2.id2childrenid[p] + IdsOf(cs[1..]);
        { IndexNodeChildFrame(ix1, c, p); }
        (ix.id2childrenid[p] + [c.id]) + IdsOf(cs[1..]);
        { AppendAssoc(ix.id2childrenid[p], [c.id], IdsOf(cs[1..])); }
        ix.id2childrenid[p] + ([c.id] + IdsOf(cs[1..]));
        { IdsOfCons(cs); }
        ix.id2childrenid[p] + IdsOf(cs);
      }
    }
  }

  /** With unique ids, every dict with a 'children' key gets exactly its
    * child ids, in order, in `id2childrenid`. */
  lemma {:induction false} IndexNodeChildren(ix: Index, n: Node)
    requires UniqueIds(Preorder(n))
    ensures forall m :: m in Preorder(n) && m.hasChildren ==>
              m.id in IndexNode(ix, n).id2childrenid && IndexNode(ix, n).id2childrenid[m.id] == ChildIds(m)
    decreases n, 1
  {
    if n.hasChildren {
      var ix1 := ix.(id2fullname := ix.id2fullname[n.id := n.fullname],
                     fullname2id := ix.fullname2id[n.fullname := n.id]);
      var ix2 := ix1.(id2childrenid := ix1.id2childrenid[n.id := []]);
      UniqueIdsConcat([n], PreorderSeq(n.children));
      IndexKidsAppends(ix2, n.id, n.children);
      IndexKidsChildren(ix2, n.id, n.children);
    }
  }

  lemma {:induction false} IndexKidsChildren(ix: Index, p: int, cs: seq<Node>)
    requires p in ix.id2childrenid && UniqueIds(PreorderSeq(cs)) && NoId(PreorderSeq(cs), p)
    ensures forall m :: m in PreorderSeq(cs) && m.hasChildren ==>
              m.id in IndexKids(ix, p, cs).id2childrenid && IndexKids(ix, p, cs).id2childrenid[m.id] == ChildIds(m)
    decreases cs, 0
  {
    if cs != [] {
      var c := cs[0];
      var ix1 := LinkChild(ix, p, c);
      var ix2 := IndexNode(ix1, c);
      UniqueIdsConcat(Preorder(c), PreorderSeq(cs[1..]));
      IndexNodeChildren(ix1, c);
      IndexKidsChildren(ix2, p, cs[1..]);
      forall m | m in Preorder(c) && m.hasChildren
        ensures m.id in IndexKids(ix, p, cs).id2childrenid && IndexKids(ix, p, cs).id2childrenid[m.id] == ChildIds(m)
      {
        IndexKidsChildFrame(ix2, p, cs[1..], m.id);
      }
    }
  }

  /** Only dicts with a 'children' key get an `id2childrenid` entry. */
  lemma {:induction false} IndexNodeChildKeys(ix: Index, n: Node, k: int)
    requires k !in ix.id2childrenid && forall m :: m in Preorder(n) && m.id == k ==> !m.hasChildren
    ensures k !in IndexNode(ix, n).id2childrenid
    decreases n, 1
  {
    if n.hasChildren {
      var ix1 := ix.(id2fullname := ix.id2fullname[n.id := n.fullname],
                     fullname2id := ix.fullname2id[n.fullname := n.id]);
      IndexKidsChildKeys(ix1.(id2childrenid := ix1.id2childrenid[n.id := []]), n.id, n.children, k);
    }
  }

  lemma {:induction false} IndexKidsChildKeys(ix: Index, p: int, cs: seq<Node>, k: int)
    requires p in ix.id2childrenid && p != k && k !in ix.id2childrenid
    requires forall m :: m in PreorderSeq(cs) && m.id == k ==> !m.hasChildren
    ensures k !in IndexKids(ix, p, cs).id2childrenid
    decreases cs, 0
  {
    if cs != [] {
      var c := cs[0];
      var ix1 := LinkChild(ix, p, c);
      IndexNodeChildKeys(ix1, c, k);
      IndexKidsChildKeys(IndexNode(ix1, c), p, cs[1..], k);
    }
  }

  // ---------------------------------------------------------------- doindex results

  /** Every fullname of the walk occurs once. */
  predicate DistinctFullnames(s: seq<Node>) {
    forall i, j :: 0 <= i < j < |s| ==> s[i].fullname != s[j].fullname
  }

  lemma {:induction false} IndexItemsFolds(ix: Index, items: seq<Node>)
    ensures IndexItems(ix, items).id2fullname == UpdAll(ix.id2fullname, NamePairs(PreorderSeq(items)))
    ensures IndexItems(ix, items).fullname2id == UpdAll(ix.fullname2id, Swap(NamePairs(PreorderSeq(items))))
    decreases |items|
  {
    if items != [] {
      var ix1 := IndexNode(ix, items[0]);
      IndexNodeFolds(ix, items[0]);
      IndexItemsFolds(ix1, items[1..]);
      NamePairsConcat(Preorder(items[0]), PreorderSeq(items[1..]));
      SwapConcat(NamePairs(Preorder(items[0])), NamePairs(PreorderSeq(items[1..])));
      UpdAllConcat(ix.id2fullname, NamePairs(Preorder(items[0])), NamePairs(PreorderSeq(items[1..])));
      UpdAllConcat(ix.fullname2id, Swap(NamePairs(Preorder(items[0]))), Swap(NamePairs(PreorderSeq(items[1..]))));
    }
  }

  /** After `doindex`, with distinct fullnames, `fullname2id` undoes
    * `id2fullname`. */
  lemma DoIndexInverse(items: seq<Node>)
    requires DistinctFullnames(PreorderSeq(items))
    ensures var ix := IndexOf(items);
            forall i :: i in ix.id2fullname ==> ix.id2fullname[i] in ix.fullname2id && ix.fullname2id[ix.id2fullname[i]] == i
  {
    IndexItemsFolds(EmptyIndex, items);
    UpdAllInverse(NamePairs(PreorderSeq(items)));
  }

  /** After `doindex`, with unique ids, `id2fullname` maps exactly the ids of
    * the tree, each to its dict's fullname, and `fullname2id` knows every
    * fullname of the tree. */
  lemma KeysOfNamePairs(s: seq<Node>)
    ensures KeysOf(NamePairs(s)) == (set m | m in s :: m.id)
    ensures KeysOf(Swap(NamePairs(s))) == (set m | m in s :: m.fullname)
  {
    var ps := NamePairs(s);
    forall k | k in (set m | m in s :: m.id) ensures k in KeysOf(ps) {
      var m :| m in s && m.id == k;
      var i :| 0 <= i < |s| && s[i] == m;
      assert ps[i].0 == k;
    }
    forall k | k in (set m | m in s :: m.fullname) ensures k in KeysOf(Swap(ps)) {
      var m :| m in s && m.fullname == k;
      var i :| 0 <= i < |s| && s[i] == m;
      assert Swap(ps)[i].0 == k;
    }
  }

  /** After `doindex`, with unique ids, `id2fullname` maps exactly the ids of
    * the tree, each to its dict's fullname, and `fullname2id` knows exactly
    * the fullnames of the tree. */
  lemma DoIndexNames(items: seq<Node>)
    requires UniqueIds(PreorderSeq(items))
    ensures var ix := IndexOf(items);
            ix.id2fullname.Keys == (set m | m in PreorderSeq(items) :: m.id) &&
            (forall m :: m in PreorderSeq(items) ==> ix.id2fullname[m.id] == m.fullname) &&
            ix.fullname2id.Keys == (set m | m in PreorderSeq(items) :: m.fullname)
  {
    IndexItemsFolds(EmptyIndex, items);
    NamePairsFoldKeys(PreorderSeq(items));
    NamePairsFoldValues(PreorderSeq(items));
  }

  /** The folds of the name pairs of a walk are keyed by its ids and by its
    * fullnames. */
  lemma NamePairsFoldKeys(s: seq<Node>)
    ensures UpdAll(map[], NamePairs(s)).Keys == (set m | m in s :: m.id)
    ensures UpdAll(map[], Swap(NamePairs(s))).Keys == (set m | m in s :: m.fullname)
  {
    UpdAllDomain(map[], NamePairs(s));
    UpdAllDomain(map[], Swap(NamePairs(s)));
    KeysOfNamePairs(s);
  }

  /** With unique ids, the fold of the name pairs maps each id to the
    * fullname of its dict. */
  lemma NamePairsFoldValues(s: seq<Node>)
    requires UniqueIds(s)
    ensures forall m :: m in s ==> m.id in UpdAll(map[], NamePairs(s)) && UpdAll(map[], NamePairs(s))[m.id] == m.fullname
  {
    var ps := NamePairs(s);
    forall m | m in s ensures m.id in UpdAll(map[], ps) && UpdAll(map[], ps)[m.id] == m.fullname {
      var i :| 0 <= i < |s| && s[i] == m;
      UpdAllUniqueKey(map[], ps, i);
    }
  }

  /** After `doindex`, every id that `fullname2id` gives is a key of `id2fullname`. */
  lemma DoIndexIdsKnown(items: seq<Node>)
    ensures var ix := IndexOf(items);
            forall f :: f in ix.fullname2id ==> ix.fullname2id[f] in ix.id2fullname
  {
    var ps := NamePairs(PreorderSeq(items));
    IndexItemsFolds(EmptyIndex, items);
    UpdAllDomain(map[], ps);
    forall f | f in UpdAll(map[], Swap(ps)) ensures UpdAll(map[], Swap(ps))[f] in KeysOf(ps) {
      UpdAllValues(map[], Swap(ps), f);
      var i :| 0 <= i < |Swap(ps)| && Swap(ps)[i] == (f, UpdAll(map[], Swap(ps))[f]);
      assert ps[i].0 == UpdAll(map[], Swap(ps))[f];
    }
  }

  /** After `doindex`, with distinct fullnames, `fullname2id` gives each
    * dict's fullname that dict's id. */
  lemma DoIndexByName(items: seq<Node>)
    requires DistinctFullnames(PreorderSeq(items))
    ensures var ix := IndexOf(items);
            forall m :: m in PreorderSeq(items) ==> m.fullname in ix.fullname2id && ix.fullname2id[m.fullname] == m.id
  {
    var s := PreorderSeq(items);
    var qs := Swap(NamePairs(s));
    IndexItemsFolds(EmptyIndex, items);
    forall m | m in s ensures m.fullname in UpdAll(map[], qs) && UpdAll(map[], qs)[m.fullname] == m.id {
      var i :| 0 <= i < |s| && s[i] == m;
      assert qs[i] == (m.fullname, m.id);
      UpdAllUniqueKey(map[], qs, i);
    }
  }

  /** After `doindex`, with unique ids, `id2fullname` undoes `fullname2id`. */
  lemma DoIndexInverseBack(items: seq<Node>)
    requires UniqueIds(PreorderSeq(items))
    ensures var ix := IndexOf(items);
            forall f :: f in ix.fullname2id ==> ix.fullname2id[f] in ix.id2fullname && ix.id2fullname[ix.fullname2id[f]] == f
  {
    var ps := NamePairs(PreorderSeq(items));
    IndexItemsFolds(EmptyIndex, items);
    assert Swap(Swap(ps)) == ps;
    UpdAllInverse(Swap(ps));
  }

  /** After `doindex`, a fullname that only dicts with one id carry maps to that id. */
  lemma DoIndexFullnameAgreed(items: seq<Node>, f: string, k: int)
    requires exists x :: x in PreorderSeq(items) && x.fullname == f
    requires forall x :: x in PreorderSeq(items) && x.fullname == f ==> x.id == k
    ensures f in IndexOf(items).fullname2id && IndexOf(items).fullname2id[f] == k
  {
    var s := PreorderSeq(items);
    var qs := Swap(NamePairs(s));
    IndexItemsFolds(EmptyIndex, items);
    var x :| x in s && x.fullname == f;
    var i :| 0 <= i < |s| && s[i] == x;
    assert qs[i].0 == f;
    forall j | 0 <= j < |qs| && qs[j].0 == f ensures qs[j].1 == k {
      assert s[j] in s;
    }
    UpdAllAgreed(map[], qs, f, k);
  }

  /** After `doindex`, an id that only dicts with one fullname carry maps to
    * that fullname. */
  lemma DoIndexIdAgreed(items: seq<Node>, k: int, f: string)
    requires exists x :: x in PreorderSeq(items) && x.id == k
    requires forall x :: x in PreorderSeq(items) && x.id == k ==> x.fullname == f
    ensures k in IndexOf(items).id2fullname && IndexOf(items).id2fullname[k] == f
  {
    var s := PreorderSeq(items);
    var ps := NamePairs(s);
    IndexItemsFolds(EmptyIndex, items);
    var x :| x in s && x.id == k;
    var i :| 0 <= i < |s| && s[i] == x;
    assert ps[i].0 == k;
    forall j | 0 <= j < |ps| && ps[j].0 == k ensures ps[j].1 == f {
      assert s[j] in s;
    }
    UpdAllAgreed(map[], ps, k, f);
  }

  // ---------------------------------------------------------------- id2parentid

  lemma FirstsConcat<K, V>(a: seq<(K, V)>, b: seq<(K, V)>)
    ensures Firsts(a + b) == Firsts(a) + Firsts(b)
  {
    assert |Firsts(a + b)| == |Firsts(a) + Firsts(b)|;
    forall i | 0 <= i < |a + b| ensures Firsts(a + b)[i] == (Firsts(a) + Firsts(b))[i] {
      if i >= |a| { assert (a + b)[i] == b[i - |a|]; }
    }
  }

  lemma IdsOfConcat(a: seq<Node>, b: seq<Node>)
    ensures IdsOf(a + b) == IdsOf(a) + IdsOf(b)
  {
    assert |IdsOf(a + b)| == |IdsOf(a) + IdsOf(b)|;
    forall i | 0 <= i < |a + b| ensures IdsOf(a + b)[i] == (IdsOf(a) + IdsOf(b))[i] {
      if i >= |a| { assert (a + b)[i] == b[i - |a|]; }
    }
  }

  /** The parent pairs are keyed by the ids of all descendants, in walk order. */
  lemma {:induction false} ParentPairsFirsts(n: Node)
    ensures Firsts(ParentPairs(n)) == if n.hasChildren then IdsOf(PreorderSeq(n.children)) else []
    decreases n, 1
  {
    if n.hasChildren {
      ParentPairsKidsFirsts(n.id, n.children);
    }
  }

  lemma {:induction false} ParentPairsKidsFirsts(p: int, cs: seq<Node>)
    ensures Firsts(ParentPairsKids(p, cs)) == IdsOf(PreorderSeq(cs))
    decreases cs, 0
  {
    if cs != [] {
      var c := cs[0];
      ParentPairsFirsts(c);
      ParentPairsKidsFirsts(p, cs[1..]);
      FirstsConcat([(c.id, p)] + ParentPairs(c), ParentPairsKids(p, cs[1..]));
      FirstsConcat([(c.id, p)], ParentPairs(c));
      IdsOfConcat(Preorder(c), PreorderSeq(cs[1..]));
      var rest := if c.hasChildren then PreorderSeq(c.children) else [];
      IdsOfConcat([c], rest);
    }
  }

  /** Every parent/child link of the tree is among the parent pairs. */
  lemma {:induction false} ParentPairsHas(n: Node)
    ensures forall m, c :: m in Preorder(n) && m.hasChildren && c in m.children ==> (c.id, m.id) in ParentPairs(n)
    decreases n, 1
  {
    if n.hasChildren {
      ParentPairsKidsHas(n.id, n.children);
    }
  }

  lemma {:induction false} ParentPairsKidsHas(p: int, cs: seq<Node>)
    ensures forall c :: c in cs ==> (c.id, p) in ParentPairsKids(p, cs)
    ensures forall m, c :: m in PreorderSeq(cs) && m.hasChildren && c in m.children ==> (c.id, m.id) in ParentPairsKids(p, cs)
    decreases cs, 0
  {
    if cs != [] {
      ParentPairsHas(cs[0]);
      ParentPairsKidsHas(p, cs[1..]);
    }
  }

  /** Every parent pair is a parent/child link of the tree. */
  lemma {:induction false} ParentPairsFrom(n: Node)
    ensures forall q :: q in ParentPairs(n) ==>
              exists m, c :: m in Preorder(n) && m.hasChildren && c in m.children && q == (c.id, m.id)
    decreases n, 1
  {
    if n.hasChildren {
      ParentPairsKidsFrom(n, n.children);
    }
  }

  lemma {:induction false} ParentPairsKidsFrom(n: Node, cs: seq<Node>)
    requires n.hasChildren && forall c :: c in cs ==> c in n.children
    requires forall m :: m in PreorderSeq(cs) ==> m in Preorder(n)
    ensures forall q :: q in ParentPairsKids(n.id, cs) ==>
              exists m, c :: m in Preorder(n) && m.hasChildren && c in m.children && q == (c.id, m.id)
    decreases cs, 0
  {
    if cs != [] {
      ParentPairsFrom(cs[0]);
      assert forall m :: m in PreorderSeq(cs[1..]) ==> m in PreorderSeq(cs);
      ParentPairsKidsFrom(n, cs[1..]);
      assert forall m :: m in Preorder(cs[0]) ==> m in PreorderSeq(cs);
    }
  }

  /** After `doindex` of a single root with unique ids, `id2parentid` maps
    * exactly the non-root ids, each child id to its parent's id. */
  lemma DoIndexParents(root: Node)
    requires UniqueIds(Preorder(root))
    ensures var pm := IndexOf([root]).id2parentid;
            (forall m, c :: m in Preorder(root) && m.hasChildren && c in m.children ==> c.id in pm && pm[c.id] == m.id) &&
            pm.Keys == (set m | m in Preorder(root)[1..] :: m.id)
  {
    IndexOfSingle(root);
    IndexNodeParents(root);
  }

  lemma IndexNodeParents(root: Node)
    requires UniqueIds(Preorder(root))
    ensures var pm := IndexNode(EmptyIndex, root).id2parentid;
            (forall m, c :: m in Preorder(root) && m.hasChildren && c in m.children ==> c.id in pm && pm[c.id] == m.id) &&
            pm.Keys == (set m | m in Preorder(root)[1..] :: m.id)
  {
    IndexNodeFolds(EmptyIndex, root);
    ParentFoldLinks(root);
    ParentFoldKeys(root);
  }

  /** With unique ids the fold of the parent pairs maps every child to its parent. */
  lemma ParentFoldLinks(root: Node)
    requires UniqueIds(Preorder(root))
    ensures var pm := UpdAll(map[], ParentPairs(root));
            forall m, c :: m in Preorder(root) && m.hasChildren && c in m.children ==> c.id in pm && pm[c.id] == m.id
  {
    ParentPairsFirsts(root);
    ParentPairsHas(root);
    UniqueIdsConcat([root], Preorder(root)[1..]);
    FirstsFoldPairs(ParentPairs(root), Preorder(root)[1..]);
  }

  /** Pairs keyed by the ids of a walk with unique ids: the fold gives each
    * pair's key its pair's value. */
  lemma FirstsFoldPairs(ps: seq<(int, int)>, below: seq<Node>)
    requires Firsts(ps) == IdsOf(below) && UniqueIds(below)
    ensures forall q :: q in ps ==> q.0 in UpdAll(map[], ps) && UpdAll(map[], ps)[q.0] == q.1
  {
    forall q | q in ps ensures q.0 in UpdAll(map[], ps) && UpdAll(map[], ps)[q.0] == q.1 {
      var i :| 0 <= i < |ps| && ps[i] == q;
      forall j | 0 <= j < |ps| && j != i ensures ps[j].0 != ps[i].0 {
        assert Firsts(ps)[j] == below[j].id && Firsts(ps)[i] == below[i].id;
      }
      UpdAllUniqueKey(map[], ps, i);
    }
  }

  /** The fold of the parent pairs is keyed by exactly the non-root ids. */
  lemma ParentFoldKeys(root: Node)
    ensures UpdAll(map[], ParentPairs(root)).Keys == (set m | m in Preorder(root)[1..] :: m.id)
  {
    ParentPairsFirsts(root);
    FirstsFoldKeys(ParentPairs(root), Preorder(root)[1..]);
  }

  /** Pairs keyed by the ids of a walk: the fold is keyed by those ids. */
  lemma FirstsFoldKeys(ps: seq<(int, int)>, below: seq<Node>)
    requires Firsts(ps) == IdsOf(below)
    ensures UpdAll(map[], ps).Keys == (set m | m in below :: m.id)
  {
    UpdAllDomain(map[], ps);
    forall k | k in KeysOf(ps) ensures k in (set m | m in below :: m.id) {
      var i :| 0 <= i < |ps| && ps[i].0 == k;
      assert Firsts(ps)[i] == below[i].id;
    }
    forall k | k in (set m | m in below :: m.id) ensures k in KeysOf(ps) {
      var m :| m in below && m.id == k;
      var i :| 0 <= i < |below| && below[i] == m;
      assert Firsts(ps)[i] == k;
    }
  }

  /** Every child id exceeds its parent's id, and ids are not negative. */
  predicate Ordered(s: seq<Node>) {
    forall m :: m in s && m.hasChildren ==> 0 <= m.id && forall c :: c in m.children ==> m.id < c.id
  }

  /** Each `id2parentid` entry points to a smaller, non-negative id, so the
    * ancestor walk of `setActive` ends. */
  predicate ParentsBelow(pm: map<int, int>) {
    forall k :: k in pm ==> 0 <= pm[k] < k
  }

  lemma OrderedParentsBelow(root: Node)
    requires Ordered(Preorder(root))
    ensures ParentsBelow(IndexOf([root]).id2parentid)
  {
    IndexOfSingle(root);
    IndexNodeParentsBelow(root);
  }

  lemma IndexNodeParentsBelow(root: Node)
    requires Ordered(Preorder(root))
    ensures ParentsBelow(IndexNode(EmptyIndex, root).id2parentid)
  {
    var ps := ParentPairs(root);
    IndexNodeFolds(EmptyIndex, root);
    ParentPairsFrom(root);
    forall k | k in UpdAll(map[], ps) ensures 0 <= UpdAll(map[], ps)[k] < k {
      UpdAllValues(map[], ps, k);
      var i :| 0 <= i < |ps| && ps[i] == (k, UpdAll(map[], ps)[k]);
      assert ps[i] in ps;
    }
  }

  /** After `doindex` of a single root with unique ids, `id2childrenid` maps
    * exactly the ids of the dicts with a 'children' key, each to its child
    * ids in order. */
  lemma DoIndexChildren(root: Node)
    requires UniqueIds(Preorder(root))
    ensures var cm := IndexOf([root]).id2childrenid;
            (forall m :: m in Preorder(root) && m.hasChildren ==> m.id in cm && cm[m.id] == ChildIds(m)) &&
            (forall m :: m in Preorder(root) && !m.hasChildren ==> m.id !in cm)
  {
    IndexOfSingle(root);
    IndexNodeChildren(EmptyIndex, root);
    var s := Preorder(root);
    forall m | m in s && !m.hasChildren ensures m.id !in IndexNode(EmptyIndex, root).id2childrenid {
      forall x | x in s && x.id == m.id ensures !x.hasChildren {
        var i :| 0 <= i < |s| && s[i] == m;
        var j :| 0 <= j < |s| && s[j] == x;
        assert i == j;
      }
      IndexNodeChildKeys(EmptyIndex, root, m.id);
    }
  }
}
