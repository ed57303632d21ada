/** The nested `addNode` shared by `createTreemapFromList`
  * (src/vois/treemapPlotly.py) and the ipytree builders
  * (src/vois/ipytrees.py): nodes are registered by name, each remembers its
  * parent, and a new node's value is added to every ancestor.
  *
  * In the source `parent_of` maps a name to the parent node object, and the
  * walk stops at `None` (treemap) or at the `Tree` widget (ipytree), neither
  * of which is a node. Here a parent is named by its registry key, and the
  * stopping object is `None`. */
module PathTrees {
  import opened Wrappers

  /** Every parent link leads to a registered node of smaller depth, so the
    * ancestor walk ends. */
  ghost predicate Linked(parentOf: map<string, Option<string>>, depth: map<string, nat>) {
    parentOf.Keys <= depth.Keys &&
    forall k {:trigger parentOf[k]} :: k in parentOf && parentOf[k].Some? ==>
      parentOf[k].value in parentOf && depth[parentOf[k].value] < depth[k]
  }

  /** The nodes the walk `while parent != None: ...; parent =
    * parent_of[parent.name]` visits from `p`. */
  ghost function Ancestors(parentOf: map<string, Option<string>>, depth: map<string, nat>, p: Option<string>): set<string>
    requires Linked(parentOf, depth) && (p.Some? ==> p.value in parentOf)
    decreases if p.Some? then depth[p.value] + 1 else 0
  {
    if p.None? then {} else {p.value} + Ancestors(parentOf, depth, parentOf[p.value])
  }

  /** Ancestors are registered, and none is deeper than where the walk
    * starts. */
  lemma {:induction false} AncestorsWithin(parentOf: map<string, Option<string>>, depth: map<string, nat>, p: Option<string>)
    requires Linked(parentOf, depth) && (p.Some? ==> p.value in parentOf)
    ensures forall y :: y in Ancestors(parentOf, depth, p) ==> y in parentOf && depth[y] <= depth[p.value]
    decreases if p.Some? then depth[p.value] + 1 else 0
  {
    if p.Some? {
      AncestorsWithin(parentOf, depth, parentOf[p.value]);
    }
  }

  /** Registering a new node does not change the ancestors of the others. */
  lemma {:induction false} AncestorsFrame(parentOf: map<string, Option<string>>, depth: map<string, nat>,
                                          n: string, q: Option<string>, d: nat, p: Option<string>)
    requires Linked(parentOf, depth) && Linked(parentOf[n := q], depth[n := d]) && n !in parentOf
    requires p.Some? ==> p.value in parentOf
    ensures Ancestors(parentOf[n := q], depth[n := d], p) == Ancestors(parentOf, depth, p)
    decreases if p.Some? then depth[p.value] + 1 else 0
  {
    if p.Some? {
      AncestorsFrame(parentOf, depth, n, q, d, parentOf[p.value]);
    }
  }

  /** The reference definition of a node's final value: the initial values
    * of all the nodes in its subtree, that is of every node that is `k` or
    * has `k` among its ancestors. */
  ghost function SubtreeSum(labels: seq<string>, initial: map<string, real>, parentOf: map<string, Option<string>>,
                            depth: map<string, nat>, k: string): real
    requires Linked(parentOf, depth)
    requires forall i :: 0 <= i < |labels| ==> labels[i] in parentOf && labels[i] in initial
    decreases |labels|
  {
    if labels == [] then 0.0
    else
      var m := labels[|labels| - 1];
      SubtreeSum(labels[..|labels| - 1], initial, parentOf, depth, k) +
      (if m == k || k in Ancestors(parentOf, depth, parentOf[m]) then initial[m] else 0.0)
  }

  lemma {:induction false} SubtreeSumFrame(labels: seq<string>, initial: map<string, real>, parentOf: map<string, Option<string>>,
                                           depth: map<string, nat>, n: string, v: real, q: Option<string>, d: nat, k: string)
    requires Linked(parentOf, depth) && Linked(parentOf[n := q], depth[n := d]) && n !in parentOf
    requires forall i :: 0 <= i < |labels| ==> labels[i] in parentOf && labels[i] in initial
    ensures SubtreeSum(labels, initial[n := v], parentOf[n := q], depth[n := d], k) ==
            SubtreeSum(labels, initial, parentOf, depth, k)
    decreases |labels|
  {
    if labels != [] {
      var m := labels[|labels| - 1];
      SubtreeSumFrame(labels[..|labels| - 1], initial, parentOf, depth, n, v, q, d, k);
      AncestorsFrame(parentOf, depth, n, q, d, parentOf[m]);
    }
  }

  /** A name nobody has registered has nothing in its subtree yet. */
  lemma {:induction false} SubtreeSumAbsent(labels: seq<string>, initial: map<string, real>, parentOf: map<string, Option<string>>,
                                            depth: map<string, nat>, n: string)
    requires Linked(parentOf, depth) && n !in parentOf
    requires forall i :: 0 <= i < |labels| ==> labels[i] in parentOf && labels[i] in initial
    ensures SubtreeSum(labels, initial, parentOf, depth, n) == 0.0
    decreases |labels|
  {
    if labels != [] {
      var m := labels[|labels| - 1];
      SubtreeSumAbsent(labels[..|labels| - 1], initial, parentOf, depth, n);
      AncestorsWithin(parentOf, depth, parentOf[m]);
    }
  }

  /** What registering `n` below `q` with initial value `v` does to the
    * subtree sums: `v` joins the sum of `n` itself and of every ancestor. */
  lemma SubtreeSumAdd(labels: seq<string>, initial: map<string, real>, parentOf: map<string, Option<string>>,
                      depth: map<string, nat>, n: string, v: real, q: Option<string>, d: nat, k: string)
    requires Linked(parentOf, depth) && Linked(parentOf[n := q], depth[n := d]) && n !in parentOf
    requires q.Some? ==> q.value in parentOf
    requires forall i :: 0 <= i < |labels| ==> labels[i] in parentOf && labels[i] in initial
    ensures SubtreeSum(labels + [n], initial[n := v], parentOf[n := q], depth[n := d], k) ==
            SubtreeSum(labels, initial, parentOf, depth, k) + (if k == n || k in Ancestors(parentOf, depth, q) then v else 0.0)
  {
    var labels' := labels + [n];
    assert labels'[..|labels'| - 1] == labels;
    SubtreeSumFrame(labels, initial, parentOf, depth, n, v, q, d, k);
    AncestorsFrame(parentOf, depth, n, q, d, q);
  }

  /** The sum of the initial values of all the nodes. */
  ghost function Total(labels: seq<string>, initial: map<string, real>): real
    requires forall i :: 0 <= i < |labels| ==> labels[i] in initial
    decreases |labels|
  {
    if labels == [] then 0.0 else Total(labels[..|labels| - 1], initial) + initial[labels[|labels| - 1]]
  }

  /** When every node is `root` or lies below it, the subtree of `root` is
    * everything. */
  lemma {:induction false} SubtreeOfRootIsTotal(labels: seq<string>, initial: map<string, real>,
                                                parentOf: map<string, Option<string>>, depth: map<string, nat>, root: string)
    requires Linked(parentOf, depth)
    requires forall i :: 0 <= i < |labels| ==> labels[i] in parentOf && labels[i] in initial
    requires forall i :: 0 <= i < |labels| ==> labels[i] == root || root in Ancestors(parentOf, depth, parentOf[labels[i]])
    ensures SubtreeSum(labels, initial, parentOf, depth, root) == Total(labels, initial)
    decreases |labels|
  {
    if labels != [] {
      SubtreeOfRootIsTotal(labels[..|labels| - 1], initial, parentOf, depth, root);
    }
  }

  /** The walk itself: `v` added to each node from `p` up. */
  ghost function AddAlong(value: map<string, real>, parentOf: map<string, Option<string>>, depth: map<string, nat>,
                          p: Option<string>, v: real): map<string, real>
    requires Linked(parentOf, depth) && parentOf.Keys <= value.Keys && (p.Some? ==> p.value in parentOf)
    decreases if p.Some? then depth[p.value] + 1 else 0
  {
    if p.None? then value
    else AddAlong(value[p.value := value[p.value] + v], parentOf, depth, parentOf[p.value], v)
  }

  /** The walk adds `v` to exactly the ancestors, once each. */
  lemma {:induction false} AddAlongAncestors(value: map<string, real>, parentOf: map<string, Option<string>>,
                                             depth: map<string, nat>, p: Option<string>, v: real)
    requires Linked(parentOf, depth) && parentOf.Keys <= value.Keys && (p.Some? ==> p.value in parentOf)
    ensures AddAlong(value, parentOf, depth, p, v).Keys == value.Keys
    ensures forall k :: k in value ==>
              AddAlong(value, parentOf, depth, p, v)[k] == value[k] + (if k in Ancestors(parentOf, depth, p) then v else 0.0)
    decreases if p.Some? then depth[p.value] + 1 else 0
  {
    if p.Some? {
      var value' := value[p.value := value[p.value] + v];
      AddAlongAncestors(value', parentOf, depth, parentOf[p.value], v);
      AncestorsWithin(parentOf, depth, parentOf[p.value]);
    }
  }

  /** The bookkeeping of a registry: parent links go up, every registered
    * name has its initial value, and `pos` places each name in `labels`. */
  ghost predicate RegistryOf(labels: seq<string>, parentOf: map<string, Option<string>>, initial: map<string, real>,
                             depth: map<string, nat>, pos: map<string, nat>) {
    Linked(parentOf, depth) && initial.Keys == parentOf.Keys &&
    (forall i :: 0 <= i < |labels| ==> labels[i] in parentOf && labels[i] in pos && pos[labels[i]] == i) &&
    (forall k :: k in parentOf ==> k in pos && pos[k] < |labels| && labels[pos[k]] == k)
  }

  lemma RegistryAdd(labels: seq<string>, parentOf: map<string, Option<string>>, initial: map<string, real>,
                    depth: map<string, nat>, pos: map<string, nat>, name: string, parent: Option<string>, v: real, d: nat)
    requires RegistryOf(labels, parentOf, initial, depth, pos) && name !in parentOf
    requires parent.Some? ==> parent.value in parentOf && d == depth[parent.value] + 1
    requires parent.None? ==> d == 0
    ensures RegistryOf(labels + [name], parentOf[name := parent], initial[name := v], depth[name := d], pos[name := |labels|])
  {
    var labels', pos' := labels + [name], pos[name := |labels|];
    forall i | 0 <= i < |labels'| ensures labels'[i] in parentOf[name := parent] && labels'[i] in pos' && pos'[labels'[i]] == i {
      if i < |labels| {
        assert labels'[i] == labels[i];
        assert labels[i] != name;
      }
    }
  }

  /** Every node's value is the sum over its subtree. */
  ghost predicate SumsOf(labels: seq<string>, value: map<string, real>, initial: map<string, real>,
                         parentOf: map<string, Option<string>>, depth: map<string, nat>) {
    Linked(parentOf, depth) && (forall i :: 0 <= i < |labels| ==> labels[i] in parentOf && labels[i] in initial) &&
    forall k {:trigger SubtreeSum(labels, initial, parentOf, depth, k)} :: k in value ==> value[k] == SubtreeSum(labels, initial, parentOf, depth, k)
  }

  /** Registering `n` and walking its ancestors keeps every value the sum
    * over its subtree. */
  lemma SumsAdd(labels: seq<string>, value: map<string, real>, initial: map<string, real>,
                parentOf: map<string, Option<string>>, depth: map<string, nat>,
                n: string, v: real, q: Option<string>, d: nat, value': map<string, real>)
    requires SumsOf(labels, value, initial, parentOf, depth) && value.Keys == parentOf.Keys
    requires Linked(parentOf[n := q], depth[n := d]) && n !in parentOf && (q.Some? ==> q.value in parentOf)
    requires value'.Keys == value.Keys + {n} && value'[n] == v
    requires forall k :: k in value ==> value'[k] == value[k] + (if k in Ancestors(parentOf, depth, q) then v else 0.0)
    ensures SumsOf(labels + [n], value', initial[n := v], parentOf[n := q], depth[n := d])
  {
    forall k | k in value'
      ensures value'[k] == SubtreeSum(labels + [n], initial[n := v], parentOf[n := q], depth[n := d], k)
    {
      SubtreeSumAdd(labels, initial, parentOf, depth, n, v, q, d, k);
      if k == n {
        SubtreeSumAbsent(labels, initial, parentOf, depth, n);
      }
    }
  }

  /** The value a new path node starts with: `valuefor[fullname]` when
    * present, else 0. */
  function ValueFor(valuefor: map<string, real>, fullname: string): real {
    if fullname in valuefor then valuefor[fullname] else 0.0
  }

  /** Only the root has no parent, and it comes first. */
  ghost predicate RootedAt(labels: seq<string>, parentOf: map<string, Option<string>>, root: string) {
    root in parentOf && |labels| >= 1 && labels[0] == root &&
    forall k {:trigger parentOf[k]} :: k in parentOf ==> (parentOf[k].None? <==> k == root)
  }

  /** When only the root lacks a parent, every other node lies below it. */
  lemma {:induction false} BelowRoot(parentOf: map<string, Option<string>>, depth: map<string, nat>, root: string, k: string)
    requires Linked(parentOf, depth) && k in parentOf && k != root
    requires forall m :: m in parentOf ==> (parentOf[m].None? <==> m == root)
    ensures root in Ancestors(parentOf, depth, parentOf[k])
    decreases depth[k]
  {
    var p := parentOf[k].value;
    if p != root {
      BelowRoot(parentOf, depth, root, p);
    }
  }

  /** Below a root that comes first and alone lacks a parent, the root's
    * subtree is every node, and every later node has a parent. */
  lemma RootedTotals(labels: seq<string>, parentOf: map<string, Option<string>>, initial: map<string, real>,
                     depth: map<string, nat>, pos: map<string, nat>, root: string)
    requires RegistryOf(labels, parentOf, initial, depth, pos) && RootedAt(labels, parentOf, root)
    ensures SubtreeSum(labels, initial, parentOf, depth, root) == Total(labels, initial)
    ensures forall i :: 1 <= i < |labels| ==> parentOf[labels[i]].Some?
  {
    forall i | 0 <= i < |labels|
      ensures labels[i] == root || root in Ancestors(parentOf, depth, parentOf[labels[i]])
    {
      if labels[i] != root {
        BelowRoot(parentOf, depth, root, labels[i]);
      }
    }
    SubtreeOfRootIsTotal(labels, initial, parentOf, depth, root);
    forall i | 1 <= i < |labels| ensures parentOf[labels[i]].Some? {
      assert pos[labels[i]] == i;
    }
  }

  /** The locals `nodes` and `parent_of`: `labels` is the key order of
    * `nodes`; `value` the current `.value` of each node. For the proofs,
    * `initial` keeps the value each node was created with, `depth` its
    * distance from the top and `pos` its place in `labels`. */
  class AggregatingTree {
    var labels: seq<string>
    var value: map<string, real>
    var parentOf: map<string, Option<string>>
    ghost var initial: map<string, real>
    ghost var depth: map<string, nat>
    ghost var pos: map<string, nat>

    ghost predicate Registry()
      reads this
    {
      RegistryOf(labels, parentOf, initial, depth, pos) && value.Keys == parentOf.Keys
    }

    /** Every node's value is the sum over its subtree. */
    ghost predicate Valid()
      reads this
    {
      Registry() && SumsOf(labels, value, initial, parentOf, depth)
    }

    constructor ()
      ensures Valid() && labels == [] && value == map[] && parentOf == map[]
    {
      labels, value, parentOf := [], map[], map[];
      initial, depth, pos := map[], map[], map[];
    }

    /** `addNode(name, value, parent)`: a registered name changes nothing
      * (and gives None); otherwise the node is registered after all the
      * others with its parent, and its value is added to itself and to
      * every ancestor, and to nothing else. */
    method AddNode(name: string, v: real, parent: Option<string>) returns (r: Option<string>)
      requires Valid() && (parent.Some? ==> parent.value in parentOf)
      modifies this
      ensures Valid()
      ensures name in old(value) ==>
                r == None && labels == old(labels) && value == old(value) && parentOf == old(parentOf) &&
                initial == old(initial)
      ensures name !in old(value) ==>
                r == Some(name) && labels == old(labels) + [name] && parentOf == old(parentOf)[name := parent] &&
                initial == old(initial)[name := v] &&
                value.Keys == old(value).Keys + {name} && value[name] == v &&
                forall k :: k in old(value) ==>
                  value[k] == old(value)[k] + (if k in Ancestors(old(parentOf), old(depth), parent) then v else 0.0)
    {
      if name in value {
        return None;
      }
      Register(name, v, parent);
      AncestorsFrame(old(parentOf), old(depth), name, parent, depth[name], parent);
      AncestorsWithin(old(parentOf), old(depth), parent);
      assert name !in Ancestors(parentOf, depth, parent);
      Propagate(parent, v);
      r := Some(name);
      SumsAdd(old(labels), old(value), old(initial), old(parentOf), old(depth), name, v, parent, depth[name], value);
    }

    /** The registration half of `addNode`. */
    method Register(name: string, v: real, parent: Option<string>)
      requires Registry() && name !in parentOf && (parent.Some? ==> parent.value in parentOf)
      modifies this
      ensures Registry()
      ensures labels == old(labels) + [name] && parentOf == old(parentOf)[name := parent]
      ensures value == old(value)[name := v] && initial == old(initial)[name := v]
      ensures name in depth && depth == old(depth)[name := depth[name]]
    {
      var d: nat := if parent.Some? then depth[parent.value] + 1 else 0;
      var labels', parentOf', value' := labels + [name], parentOf[name := parent], value[name := v];
      ghost var initial', depth', pos' := initial[name := v], depth[name := d], pos[name := |labels|];
      RegistryAdd(labels, parentOf, initial, depth, pos, name, parent, v, d);
      assert RegistryOf(labels', parentOf', initial', depth', pos') && value'.Keys == parentOf'.Keys;
      labels, parentOf, value := labels', parentOf', value';
      initial, depth, pos := initial', depth', pos';
    }

    /** The walk: `while parent != None: parent.value += value; parent =
      * parent_of[parent.name]`. */
    method Propagate(parent: Option<string>, v: real)
      requires Registry() && (parent.Some? ==> parent.value in parentOf)
      modifies this`value
      ensures Registry() && value.Keys == old(value).Keys
      ensures forall k :: k in old(value) ==>
                value[k] == old(value)[k] + (if k in Ancestors(parentOf, depth, parent) then v else 0.0)
    {
      var p := parent;
      while p.Some?
        invariant p.Some? ==> p.value in parentOf
        invariant value.Keys == old(value).Keys
        invariant AddAlong(value, parentOf, depth, p, v) == AddAlong(old(value), parentOf, depth, parent, v)
        decreases if p.Some? then depth[p.value] + 1 else 0
      {
        value := value[p.value := value[p.value] + v];
        p := parentOf[p.value];
      }
      AddAlongAncestors(old(value), parentOf, depth, parent, v);
    }
  }
}
