/** The node dicts of `vois.vuetify.treeview` and the recursive searches over
  * them: leaf collection, id lookup, the children search of
  * `treeviewOperations.getChildren`, and the bottom-up selection expansion of
  * `CustomTreeview`. */
module TreeNodes {
  import opened Wrappers

  /** One node dict of a treeview's `items`. `hasChildren` says whether the
    * dict has a 'children' key; `children` is that list (empty when the key
    * is absent). `disabled` and `isfolder` stand for keys set to True. */
  datatype Node = Node(id: int, name: string, fullname: string, disabled: bool, icon: Option<string>,
                       isfolder: bool, hasChildren: bool, children: seq<Node>)

  /** A dict with only 'id', 'name' and 'fullname'. */
  function Plain(id: int, name: string, fullname: string): Node {
    Node(id, name, fullname, false, None, false, false, [])
  }

  /** Every node of the subtree, depth first and left to right: the order in
    * which each recursive walk of the source visits the dicts. */
  function Preorder(n: Node): (r: seq<Node>)
    ensures |r| >= 1 && r[0] == n
  {
    [n] + (if n.hasChildren then PreorderSeq(n.children) else [])
  }

  function PreorderSeq(cs: seq<Node>): seq<Node>
  {
    if cs == [] then [] else Preorder(cs[0]) + PreorderSeq(cs[1..])
  }

  lemma PreorderSeqConcat(a: seq<Node>, b: seq<Node>)
    ensures PreorderSeq(a + b) == PreorderSeq(a) + PreorderSeq(b)
  {
    if a != [] {
      assert (a + b)[1..] == a[1..] + b;
      PreorderSeqConcat(a[1..], b);
    } else {
      assert a + b == b;
    }
  }

  /** Every child dict of a node occurs in the node's walk. */
  lemma {:induction false} ChildrenInPreorderSeq(cs: seq<Node>, i: nat)
    requires i < |cs|
    ensures forall m :: m in Preorder(cs[i]) ==> m in PreorderSeq(cs)
    decreases i
  {
    if i > 0 {
      ChildrenInPreorderSeq(cs[1..], i - 1);
      assert cs[1..][i - 1] == cs[i];
    }
  }

  /** The walk of a node inside a tree is part of the tree's walk. */
  lemma {:induction false} SubtreeInPreorder(n: Node, m: Node)
    requires m in Preorder(n)
    ensures forall x :: x in Preorder(m) ==> x in Preorder(n)
    decreases n, 1
  {
    if m != n {
      SubtreeInPreorderSeq(n.children, m);
    }
  }

  lemma {:induction false} SubtreeInPreorderSeq(cs: seq<Node>, m: Node)
    requires m in PreorderSeq(cs)
    ensures forall x :: x in Preorder(m) ==> x in PreorderSeq(cs)
    decreases cs, 0
  {
    if m in Preorder(cs[0]) {
      SubtreeInPreorder(cs[0], m);
    } else {
      SubtreeInPreorderSeq(cs[1..], m);
    }
  }

  /** The children of a node of the walk are in the walk. */
  lemma ChildInPreorder(n: Node, m: Node, c: Node)
    requires m in Preorder(n) && m.hasChildren && c in m.children
    ensures c in Preorder(n)
  {
    var i :| 0 <= i < |m.children| && m.children[i] == c;
    ChildrenInPreorderSeq(m.children, i);
    assert Preorder(c)[0] == c;
    assert c in PreorderSeq(m.children);
    assert Preorder(m) == [m] + PreorderSeq(m.children);
    assert c in Preorder(m);
    SubtreeInPreorder(n, m);
  }

  /** Dicts without a 'children' key are their own walk. */
  lemma {:induction false} PreorderSeqPlain(cs: seq<Node>)
    requires forall c :: c in cs ==> !c.hasChildren
    ensures PreorderSeq(cs) == cs
  {
    if cs != [] {
      PreorderSeqPlain(cs[1..]);
    }
  }

  function IdsOf(s: seq<Node>): (r: seq<int>)
    ensures |r| == |s| && forall i :: 0 <= i < |s| ==> r[i] == s[i].id
  {
    seq(|s|, i requires 0 <= i < |s| => s[i].id)
  }

  lemma AppendAssoc<T>(a: seq<T>, b: seq<T>, c: seq<T>)
    ensures (a + b) + c == a + (b + c)
  {
  }

  lemma IdsOfCons(cs: seq<Node>)
    requires cs != []
    ensures IdsOf(cs) == [cs[0].id] + IdsOf(cs[1..])
  {
  }

  /** The ids of a node's children, `[]` when it has no 'children' key. */
  function ChildIds(n: Node): seq<int> {
    if n.hasChildren then IdsOf(n.children) else []
  }

  /** No two dicts of the walk share an id. */
  predicate UniqueIds(s: seq<Node>) {
    forall i, j :: 0 <= i < j < |s| ==> s[i].id != s[j].id
  }

  predicate Distinct<T(==)>(s: seq<T>) {
    forall i, j :: 0 <= i < j < |s| ==> s[i] != s[j]
  }

  lemma UniqueIdsConcat(a: seq<Node>, b: seq<Node>)
    requires UniqueIds(a + b)
    ensures UniqueIds(a) && UniqueIds(b)
    ensures forall x, y :: x in a && y in b ==> x.id != y.id
  {
    forall x, y | x in a && y in b ensures x.id != y.id {
      var i :| 0 <= i < |a| && a[i] == x;
      var j :| 0 <= j < |b| && b[j] == y;
      assert (a + b)[i] == x && (a + b)[|a| + j] == y;
    }
    forall i, j | 0 <= i < j < |b| ensures b[i].id != b[j].id {
      assert (a + b)[|a| + i] == b[i] && (a + b)[|a| + j] == b[j];
    }
    forall i, j | 0 <= i < j < |a| ensures a[i].id != a[j].id {
      assert (a + b)[i] == a[i] && (a + b)[j] == a[j];
    }
  }

  // ---------------------------------------------------------------- calculateIdsOfLeaves

  /** The ids of the dicts without a 'children' key, in order. */
  function LeafIds(s: seq<Node>): seq<int> {
    if s == [] then [] else (if s[0].hasChildren then [] else [s[0].id]) + LeafIds(s[1..])
  }

  lemma LeafIdsConcat(a: seq<Node>, b: seq<Node>)
    ensures LeafIds(a + b) == LeafIds(a) + LeafIds(b)
  {
    if a != [] {
      assert (a + b)[1..] == a[1..] + b;
      LeafIdsConcat(a[1..], b);
    } else {
      assert a + b == b;
    }
  }

  /** `calculateIdsOfLeaves(node, listofids)`: appends to the accumulator the
    * id of every dict without children, recursing into children in order. */
  function CalculateIdsOfLeaves(n: Node, listofids: seq<int>): seq<int> {
    if !n.hasChildren then listofids + [n.id] else LeavesOfChildren(n.children, listofids)
  }

  function LeavesOfChildren(cs: seq<Node>, listofids: seq<int>): seq<int> {
    if cs == [] then listofids else LeavesOfChildren(cs[1..], CalculateIdsOfLeaves(cs[0], listofids))
  }

  /** The accumulator ends up extended by the childless ids in depth-first,
    * left-to-right order. */
  lemma {:induction false} CalculateIdsOfLeavesSpec(n: Node, listofids: seq<int>)
    ensures CalculateIdsOfLeaves(n, listofids) == listofids + LeafIds(Preorder(n))
    decreases n, 1
  {
    if n.hasChildren {
      LeavesOfChildrenSpec(n.children, listofids);
      LeafIdsConcat([n], PreorderSeq(n.children));
    } else {
      assert Preorder(n) == [n];
    }
  }

  lemma {:induction false} LeavesOfChildrenSpec(cs: seq<Node>, listofids: seq<int>)
    ensures LeavesOfChildren(cs, listofids) == listofids + LeafIds(PreorderSeq(cs))
    decreases cs, 0
  {
    if cs != [] {
      CalculateIdsOfLeavesSpec(cs[0], listofids);
      LeavesOfChildrenSpec(cs[1..], CalculateIdsOfLeaves(cs[0], listofids));
      LeafIdsConcat(Preorder(cs[0]), PreorderSeq(cs[1..]));
    }
  }

  /** The module-level `calculateIdsOfLeaves(node)` called without a list: the
    * default list is one object shared by every call, so `shared` is what
    * earlier calls left in it, and the returned list is also its new contents. */
  function LeavesWithSharedDefault(shared: seq<int>, n: Node): (r: seq<int>)
    ensures r == shared + LeafIds(Preorder(n))
  {
    CalculateIdsOfLeavesSpec(n, shared);
    CalculateIdsOfLeaves(n, shared)
  }

  /** Two trees built in one session, each a lone root with id 1: the second
    * call returns [1, 1] instead of its own leaves [1]. */
  lemma SharedDefaultAccumulates()
    ensures var first := LeavesWithSharedDefault([], Plain(1, "Root", "Root"));
            LeavesWithSharedDefault(first, Plain(1, "Root", "Root")) == [1, 1]
    ensures LeafIds(Preorder(Plain(1, "Root", "Root"))) == [1]
  {
  }

  /** The corrected call: a fresh list each time. */
  function LeavesOfTree(n: Node): (r: seq<int>)
    ensures r == LeafIds(Preorder(n))
  {
    CalculateIdsOfLeavesSpec(n, []);
    CalculateIdsOfLeaves(n, [])
  }

  // ---------------------------------------------------------------- id2Name

  /** The fullname of the first dict of a walk with the given id. */
  function FirstFullname(s: seq<Node>, id: int): Option<string> {
    if s == [] then None else if s[0].id == id then Some(s[0].fullname) else FirstFullname(s[1..], id)
  }

  lemma FirstFullnameConcat(a: seq<Node>, b: seq<Node>, id: int)
    ensures FirstFullname(a + b, id) == if FirstFullname(a, id).Some? then FirstFullname(a, id) else FirstFullname(b, id)
  {
    if a != [] {
      assert (a + b)[1..] == a[1..] + b;
      FirstFullnameConcat(a[1..], b, id);
    } else {
      assert a + b == b;
    }
  }

  lemma FirstFullnameFound(s: seq<Node>, id: int)
    ensures FirstFullname(s, id).Some? <==> exists m :: m in s && m.id == id
    ensures FirstFullname(s, id).Some? ==> exists m :: m in s && m.id == id && m.fullname == FirstFullname(s, id).value
  {
    if s != [] {
      FirstFullnameFound(s[1..], id);
      if s[0].id != id {
        assert forall m :: m in s && m.id == id ==> m in s[1..];
      }
    }
  }

  /** `CustomTreeview.id2Name`: the fullname of the node with the given id,
    * searching the node before its children, or None. */
  function Id2Name(n: Node, id: int): Option<string> {
    if n.id == id then Some(n.fullname)
    else if n.hasChildren then Id2NameSeq(n.children, id)
    else None
  }

  function Id2NameSeq(cs: seq<Node>, id: int): Option<string> {
    if cs == [] then None
    else match Id2Name(cs[0], id)
      case Some(f) => Some(f)
      case None => Id2NameSeq(cs[1..], id)
  }

  /** id2Name returns the fullname of the first dict with that id in the
    * depth-first walk. */
  lemma {:induction false} Id2NameIsFirstInWalk(n: Node, id: int)
    ensures Id2Name(n, id) == FirstFullname(Preorder(n), id)
    decreases n, 1
  {
    FirstFullnameConcat([n], if n.hasChildren then PreorderSeq(n.children) else [], id);
    if n.hasChildren && n.id != id {
      Id2NameSeqIsFirstInWalk(n.children, id);
    }
  }

  lemma {:induction false} Id2NameSeqIsFirstInWalk(cs: seq<Node>, id: int)
    ensures Id2NameSeq(cs, id) == FirstFullname(PreorderSeq(cs), id)
    decreases cs, 0
  {
    if cs != [] {
      Id2NameIsFirstInWalk(cs[0], id);
      Id2NameSeqIsFirstInWalk(cs[1..], id);
      FirstFullnameConcat(Preorder(cs[0]), PreorderSeq(cs[1..]), id);
    }
  }

  /** id2Name finds an id exactly when some node carries it. */
  lemma Id2NameFinds(n: Node, id: int)
    ensures Id2Name(n, id).Some? <==> exists m :: m in Preorder(n) && m.id == id
    ensures Id2Name(n, id).Some? ==> exists m :: m in Preorder(n) && m.id == id && m.fullname == Id2Name(n, id).value
  {
    Id2NameIsFirstInWalk(n, id);
    FirstFullnameFound(Preorder(n), id);
  }

  // ---------------------------------------------------------------- getChildren search

  /** The inner `__getchildren(node, nodeid)` of `getChildren`: the child ids
    * of the matching node, otherwise the first non-empty answer among the
    * children, otherwise []. */
  function ChildrenSearch(n: Node, id: int): seq<int> {
    if n.id == id && n.hasChildren then IdsOf(n.children)
    else if n.hasChildren then ChildrenSearchSeq(n.children, id)
    else []
  }

  function ChildrenSearchSeq(cs: seq<Node>, id: int): seq<int> {
    if cs == [] then []
    else
      var r := ChildrenSearch(cs[0], id);
      if |r| > 0 then r else ChildrenSearchSeq(cs[1..], id)
  }

  /** An id no node carries gives []. */
  lemma {:induction false} ChildrenSearchAbsent(n: Node, id: int)
    requires forall m :: m in Preorder(n) ==> m.id != id
    ensures ChildrenSearch(n, id) == []
    decreases n, 1
  {
    if n.hasChildren {
      assert forall m :: m in PreorderSeq(n.children) ==> m in Preorder(n);
      ChildrenSearchSeqAbsent(n.children, id);
    }
  }

  lemma {:induction false} ChildrenSearchSeqAbsent(cs: seq<Node>, id: int)
    requires forall m :: m in PreorderSeq(cs) ==> m.id != id
    ensures ChildrenSearchSeq(cs, id) == []
    decreases cs, 0
  {
    if cs != [] {
      ChildrenSearchAbsent(cs[0], id);
      ChildrenSearchSeqAbsent(cs[1..], id);
    }
  }

  /** With unique ids the search returns exactly the child ids of the node
    * carrying the id (`[]` when it has none). */
  lemma {:induction false} ChildrenSearchFinds(n: Node, target: Node)
    requires UniqueIds(Preorder(n)) && target in Preorder(n)
    ensures ChildrenSearch(n, target.id) == ChildIds(target)
    decreases n, 1
  {
    if n.id != target.id {
      assert n.hasChildren;
      UniqueIdsConcat([n], PreorderSeq(n.children));
      ChildrenSearchSeqFinds(n.children, target);
    }
  }

  lemma {:induction false} ChildrenSearchSeqFinds(cs: seq<Node>, target: Node)
    requires UniqueIds(PreorderSeq(cs)) && target in PreorderSeq(cs)
    ensures ChildrenSearchSeq(cs, target.id) == ChildIds(target)
    decreases cs, 0
  {
    UniqueIdsConcat(Preorder(cs[0]), PreorderSeq(cs[1..]));
    if target in Preorder(cs[0]) {
      ChildrenSearchFinds(cs[0], target);
      if ChildIds(target) == [] {
        ChildrenSearchSeqAbsent(cs[1..], target.id);
      }
    } else {
      ChildrenSearchAbsent(cs[0], target.id);
      ChildrenSearchSeqFinds(cs[1..], target);
    }
  }

  // ---------------------------------------------------------------- setChildren replacement

  /** The inner `__setchildren(node, nodeid, children)` of `setChildren`,
    * applied to a deep copy: every dict carrying the id gets the new child
    * list. The walk then goes on into the node's new children; those are
    * dicts without a 'children' key and with other ids, so it leaves them
    * as they are. */
  function ReplaceChildren(n: Node, id: int, cs: seq<Node>): (r: Node)
    requires forall c :: c in cs ==> c.id != id && !c.hasChildren
    ensures r.id == n.id && r.fullname == n.fullname
    decreases n
  {
    if n.id == id then n.(hasChildren := true, children := cs)
    else if n.hasChildren then n.(children := ReplaceSeq(n.children, id, cs))
    else n
  }

  function ReplaceSeq(ns: seq<Node>, id: int, cs: seq<Node>): (r: seq<Node>)
    requires forall c :: c in cs ==> c.id != id && !c.hasChildren
    ensures |r| == |ns|
    decreases ns
  {
    if ns == [] then [] else [ReplaceChildren(ns[0], id, cs)] + ReplaceSeq(ns[1..], id, cs)
  }

  /** An id no dict carries leaves the tree as it is. */
  lemma {:induction false} ReplaceAbsent(n: Node, id: int, cs: seq<Node>)
    requires forall c :: c in cs ==> c.id != id && !c.hasChildren
    requires forall m :: m in Preorder(n) ==> m.id != id
    ensures ReplaceChildren(n, id, cs) == n
    decreases n, 1
  {
    if n.hasChildren {
      ReplaceSeqAbsent(n.children, id, cs);
    }
  }

  lemma {:induction false} ReplaceSeqAbsent(ns: seq<Node>, id: int, cs: seq<Node>)
    requires forall c :: c in cs ==> c.id != id && !c.hasChildren
    requires forall m :: m in PreorderSeq(ns) ==> m.id != id
    ensures ReplaceSeq(ns, id, cs) == ns
    decreases ns, 0
  {
    if ns != [] {
      ReplaceAbsent(ns[0], id, cs);
      ReplaceSeqAbsent(ns[1..], id, cs);
    }
  }

  /** When some dict carries the id, the children search on the new tree
    * answers the ids of the new children. */
  lemma {:induction false} ReplaceSearch(n: Node, id: int, cs: seq<Node>)
    requires forall c :: c in cs ==> c.id != id && !c.hasChildren
    requires exists m :: m in Preorder(n) && m.id == id
    ensures ChildrenSearch(ReplaceChildren(n, id, cs), id) == IdsOf(cs)
    decreases n, 1
  {
    if n.id != id {
      ReplaceSeqSearch(n.children, id, cs);
    }
  }

  lemma {:induction false} ReplaceSeqSearch(ns: seq<Node>, id: int, cs: seq<Node>)
    requires forall c :: c in cs ==> c.id != id && !c.hasChildren
    requires exists m :: m in PreorderSeq(ns) && m.id == id
    ensures ChildrenSearchSeq(ReplaceSeq(ns, id, cs), id) == IdsOf(cs)
    decreases ns, 0
  {
    var rs := ReplaceSeq(ns, id, cs);
    assert rs[0] == ReplaceChildren(ns[0], id, cs) && rs[1..] == ReplaceSeq(ns[1..], id, cs);
    if exists m :: m in Preorder(ns[0]) && m.id == id {
      ReplaceSearch(ns[0], id, cs);
      if cs == [] {
        if exists m :: m in PreorderSeq(ns[1..]) && m.id == id {
          ReplaceSeqSearch(ns[1..], id, cs);
        } else {
          ReplaceSeqAbsent(ns[1..], id, cs);
          ChildrenSearchSeqAbsent(ns[1..], id);
        }
      }
    } else {
      ReplaceAbsent(ns[0], id, cs);
      ChildrenSearchAbsent(ns[0], id);
      ReplaceSeqSearch(ns[1..], id, cs);
    }
  }

  /** Every dict of the new tree carrying the id has exactly the new children. */
  lemma {:induction false} ReplaceMatches(n: Node, id: int, cs: seq<Node>, x: Node)
    requires forall c :: c in cs ==> c.id != id && !c.hasChildren
    requires x in Preorder(ReplaceChildren(n, id, cs)) && x.id == id
    ensures x.hasChildren && x.children == cs
    decreases n, 1
  {
    if n.id == id {
      PreorderSeqPlain(cs);
    } else {
      ReplaceSeqMatches(n.children, id, cs, x);
    }
  }

  lemma {:induction false} ReplaceSeqMatches(ns: seq<Node>, id: int, cs: seq<Node>, x: Node)
    requires forall c :: c in cs ==> c.id != id && !c.hasChildren
    requires x in PreorderSeq(ReplaceSeq(ns, id, cs)) && x.id == id
    ensures x.hasChildren && x.children == cs
    decreases ns, 0
  {
    var rs := ReplaceSeq(ns, id, cs);
    assert rs[0] == ReplaceChildren(ns[0], id, cs) && rs[1..] == ReplaceSeq(ns[1..], id, cs);
    if x in Preorder(rs[0]) {
      ReplaceMatches(ns[0], id, cs, x);
    } else {
      ReplaceSeqMatches(ns[1..], id, cs, x);
    }
  }

  /** Every dict of the new tree is a new child or has the id and fullname
    * of a dict of the old tree. */
  lemma {:induction false} ReplaceFrom(n: Node, id: int, cs: seq<Node>, x: Node)
    requires forall c :: c in cs ==> c.id != id && !c.hasChildren
    requires x in Preorder(ReplaceChildren(n, id, cs))
    ensures x in cs || exists y :: y in Preorder(n) && y.id == x.id && y.fullname == x.fullname
    decreases n, 1
  {
    if n.id == id {
      PreorderSeqPlain(cs);
    } else if x != ReplaceChildren(n, id, cs) {
      ReplaceSeqFrom(n.children, id, cs, x);
      assert forall y :: y in PreorderSeq(n.children) ==> y in Preorder(n);
    }
  }

  lemma {:induction false} ReplaceSeqFrom(ns: seq<Node>, id: int, cs: seq<Node>, x: Node)
    requires forall c :: c in cs ==> c.id != id && !c.hasChildren
    requires x in PreorderSeq(ReplaceSeq(ns, id, cs))
    ensures x in cs || exists y :: y in PreorderSeq(ns) && y.id == x.id && y.fullname == x.fullname
    decreases ns, 0
  {
    var rs := ReplaceSeq(ns, id, cs);
    assert rs[0] == ReplaceChildren(ns[0], id, cs) && rs[1..] == ReplaceSeq(ns[1..], id, cs);
    if x in Preorder(rs[0]) {
      ReplaceFrom(ns[0], id, cs, x);
      assert forall y :: y in Preorder(ns[0]) ==> y in PreorderSeq(ns);
    } else {
      ReplaceSeqFrom(ns[1..], id, cs, x);
      assert forall y :: y in PreorderSeq(ns[1..]) ==> y in PreorderSeq(ns);
    }
  }

  /** The first dict of the walk carrying the id keeps its fullname. */
  lemma {:induction false} ReplaceKeepsId2Name(n: Node, id: int, cs: seq<Node>)
    requires forall c :: c in cs ==> c.id != id && !c.hasChildren
    ensures Id2Name(ReplaceChildren(n, id, cs), id) == Id2Name(n, id)
    decreases n, 1
  {
    if n.id != id && n.hasChildren {
      ReplaceSeqKeepsId2Name(n.children, id, cs);
    }
  }

  lemma {:induction false} ReplaceSeqKeepsId2Name(ns: seq<Node>, id: int, cs: seq<Node>)
    requires forall c :: c in cs ==> c.id != id && !c.hasChildren
    ensures Id2NameSeq(ReplaceSeq(ns, id, cs), id) == Id2NameSeq(ns, id)
    decreases ns, 0
  {
    if ns != [] {
      var rs := ReplaceSeq(ns, id, cs);
      assert rs[0] == ReplaceChildren(ns[0], id, cs) && rs[1..] == ReplaceSeq(ns[1..], id, cs);
      ReplaceKeepsId2Name(ns[0], id, cs);
      ReplaceSeqKeepsId2Name(ns[1..], id, cs);
    }
  }

  // ---------------------------------------------------------------- expandSelectionToParents

  /** The effect of `expandSelectionToParents(node)` on `selected`: children
    * first (each recursively), then the node's id is appended when every
    * child id is selected right after that child was processed and the id is
    * not selected yet. A node without a 'children' key is left alone. */
  function Expand(n: Node, sel: seq<int>): seq<int> {
    if !n.hasChildren then sel
    else
      var r := ExpandKids(n.children, sel, true);
      if r.1 && n.id !in r.0 then r.0 + [n.id] else r.0
  }

  /** The loop over the children: the selection so far and the `sel` flag. */
  function ExpandKids(cs: seq<Node>, sel: seq<int>, all: bool): (seq<int>, bool) {
    if cs == [] then (sel, all)
    else
      var s1 := Expand(cs[0], sel);
      ExpandKids(cs[1..], s1, all && cs[0].id in s1)
  }

  predicate IsPrefix<T(==)>(a: seq<T>, b: seq<T>) {
    |a| <= |b| && b[..|a|] == a
  }

  /** Nothing is removed and nothing is reordered; ids are only appended. */
  lemma {:induction false} ExpandGrows(n: Node, sel: seq<int>)
    ensures IsPrefix(sel, Expand(n, sel))
    decreases n, 1
  {
    if n.hasChildren {
      ExpandKidsGrows(n.children, sel, true);
    }
  }

  lemma {:induction false} ExpandKidsGrows(cs: seq<Node>, sel: seq<int>, all: bool)
    ensures IsPrefix(sel, ExpandKids(cs, sel, all).0)
    ensures ExpandKids(cs, sel, all).1 ==> all
    decreases cs, 0
  {
    if cs != [] {
      var s1 := Expand(cs[0], sel);
      ExpandGrows(cs[0], sel);
      ExpandKidsGrows(cs[1..], s1, all && cs[0].id in s1);
      var r := ExpandKids(cs[1..], s1, all && cs[0].id in s1).0;
      assert r[..|sel|] == r[..|s1|][..|sel|];
    }
  }

  /** The ids of dicts that have a 'children' key. */
  function InnerIds(s: seq<Node>): seq<int> {
    if s == [] then [] else (if s[0].hasChildren then [s[0].id] else []) + InnerIds(s[1..])
  }

  lemma InnerIdsConcat(a: seq<Node>, b: seq<Node>)
    ensures InnerIds(a + b) == InnerIds(a) + InnerIds(b)
  {
    if a != [] {
      assert (a + b)[1..] == a[1..] + b;
      InnerIdsConcat(a[1..], b);
    } else {
      assert a + b == b;
    }
  }

  /** Only ids of nodes that have children are ever added. */
  lemma {:induction false} ExpandAddsInnerIds(n: Node, sel: seq<int>)
    ensures forall x :: x in Expand(n, sel) ==> x in sel || x in InnerIds(Preorder(n))
    decreases n, 1
  {
    if n.hasChildren {
      InnerIdsConcat([n], PreorderSeq(n.children));
      ExpandKidsAddsInnerIds(n.children, sel, true);
    }
  }

  lemma {:induction false} ExpandKidsAddsInnerIds(cs: seq<Node>, sel: seq<int>, all: bool)
    ensures forall x :: x in ExpandKids(cs, sel, all).0 ==> x in sel || x in InnerIds(PreorderSeq(cs))
    decreases cs, 0
  {
    if cs != [] {
      var s1 := Expand(cs[0], sel);
      ExpandAddsInnerIds(cs[0], sel);
      ExpandKidsAddsInnerIds(cs[1..], s1, all && cs[0].id in s1);
      InnerIdsConcat(Preorder(cs[0]), PreorderSeq(cs[1..]));
    }
  }

  /** A duplicate-free selection stays duplicate-free. */
  lemma {:induction false} ExpandKeepsDistinct(n: Node, sel: seq<int>)
    requires Distinct(sel)
    ensures Distinct(Expand(n, sel))
    decreases n, 1
  {
    if n.hasChildren {
      ExpandKidsKeepsDistinct(n.children, sel, true);
      var r := ExpandKids(n.children, sel, true);
      if r.1 && n.id !in r.0 {
        var s := r.0 + [n.id];
        assert forall i :: 0 <= i < |r.0| ==> s[i] == r.0[i];
      }
    }
  }

  lemma {:induction false} ExpandKidsKeepsDistinct(cs: seq<Node>, sel: seq<int>, all: bool)
    requires Distinct(sel)
    ensures Distinct(ExpandKids(cs, sel, all).0)
    decreases cs, 0
  {
    if cs != [] {
      var s1 := Expand(cs[0], sel);
      ExpandKeepsDistinct(cs[0], sel);
      ExpandKidsKeepsDistinct(cs[1..], s1, all && cs[0].id in s1);
    }
  }

  /** When every leaf is selected, expansion selects every node of the tree. */
  lemma {:induction false} ExpandFromAllLeaves(n: Node, sel: seq<int>)
    requires forall x :: x in LeafIds(Preorder(n)) ==> x in sel
    ensures forall m :: m in Preorder(n) ==> m.id in Expand(n, sel)
    decreases n, 1
  {
    if !n.hasChildren {
      assert LeafIds(Preorder(n)) == [n.id];
    } else {
      LeafIdsConcat([n], PreorderSeq(n.children));
      ExpandKidsFromAllLeaves(n.children, sel, true);
      var r := ExpandKids(n.children, sel, true);
      assert forall m :: m in Preorder(n) ==> m == n || m in PreorderSeq(n.children);
    }
  }

  lemma {:induction false} ExpandKidsFromAllLeaves(cs: seq<Node>, sel: seq<int>, all: bool)
    requires forall x :: x in LeafIds(PreorderSeq(cs)) ==> x in sel
    ensures forall m :: m in PreorderSeq(cs) ==> m.id in ExpandKids(cs, sel, all).0
    ensures ExpandKids(cs, sel, all).1 == all
    decreases cs, 0
  {
    if cs != [] {
      LeafIdsConcat(Preorder(cs[0]), PreorderSeq(cs[1..]));
      var s1 := Expand(cs[0], sel);
      ExpandFromAllLeaves(cs[0], sel);
      ExpandGrows(cs[0], sel);
      assert forall x :: x in sel ==> x in s1 by {
        forall x | x in sel ensures x in s1 {
          var i :| 0 <= i < |sel| && sel[i] == x;
          assert s1[..|sel|][i] == x;
        }
      }
      var all1 := all && cs[0].id in s1;
      ExpandKidsFromAllLeaves(cs[1..], s1, all1);
      var r := ExpandKids(cs[1..], s1, all1).0;
      ExpandKidsGrows(cs[1..], s1, all1);
      forall m | m in Preorder(cs[0]) ensures m.id in r {
        var i :| 0 <= i < |s1| && s1[i] == m.id;
        assert r[..|s1|][i] == m.id;
      }
    }
  }

  /** A node all of whose children are already selected gets selected. */
  lemma ExpandSelectsFullParent(n: Node, sel: seq<int>)
    requires n.hasChildren
    requires forall c :: c in n.children ==> c.id in sel
    ensures n.id in Expand(n, sel)
  {
    ExpandKidsKeepsSelected(n.children, sel, true);
  }

  lemma {:induction false} ExpandKidsKeepsSelected(cs: seq<Node>, sel: seq<int>, all: bool)
    requires forall c :: c in cs ==> c.id in sel
    ensures ExpandKids(cs, sel, all).1 == all
    decreases cs
  {
    if cs != [] {
      var s1 := Expand(cs[0], sel);
      ExpandGrows(cs[0], sel);
      assert forall x :: x in sel ==> x in s1 by {
        forall x | x in sel ensures x in s1 {
          var i :| 0 <= i < |sel| && sel[i] == x;
          assert s1[..|sel|][i] == x;
        }
      }
      ExpandKidsKeepsSelected(cs[1..], s1, all && cs[0].id in s1);
    }
  }

  /** `CustomTreeview`, reduced to the `selected` list that
    * `expandSelectionToParents` appends to. */
  class CustomTreeview {
    var selected: seq<int>

    constructor (selected: seq<int>)
      ensures this.selected == selected
    {
      this.selected := selected;
    }

    /** `expandSelectionToParents(node)`. */
    method ExpandSelectionToParents(node: Node)
      modifies this
      ensures selected == Expand(node, old(selected))
    {
      if node.hasChildren {
        ghost var sel0 := selected;
        var sel := true;
        var i := 0;
        while i < |node.children|
          invariant 0 <= i <= |node.children|
          invariant ExpandKids(node.children, sel0, true) == ExpandKids(node.children[i..], selected, sel)
        {
          assert node.children[i..][1..] == node.children[i + 1..];
          ExpandSelectionToParents(node.children[i]);
          if node.children[i].id !in selected {
            sel := false;
          }
          i := i + 1;
        }
        if sel && node.id !in selected {
          selected := selected + [node.id];
        }
      }
    }
  }
}
