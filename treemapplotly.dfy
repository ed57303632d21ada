/** `createTreemapFromList` (src/vois/treemapPlotly.py): every prefix of
  * every path becomes a node below `rootName`, its value taken from
  * `valuefor` and added to all its ancestors, and the nodes are listed as
  * the parallel labels/parents/values lists a Plotly treemap takes. */
module TreemapPlotly {
  import opened Wrappers
  import opened PyStrings
  import opened Paths
  import opened PathTrees

  /** Every node was created with its `valuefor` value, the root with 0. */
  ghost predicate CreatedFrom(initial: map<string, real>, root: string, valuefor: map<string, real>) {
    forall k {:trigger initial[k]} :: k in initial ==> initial[k] == if k == root then 0.0 else ValueFor(valuefor, k)
  }

  /** Both survive registering a node other than the root, with a parent
    * and its `valuefor` value. */
  lemma AddKeepsRooted(labels: seq<string>, parentOf: map<string, Option<string>>, initial: map<string, real>,
                       root: string, valuefor: map<string, real>, name: string, parent: string)
    requires RootedAt(labels, parentOf, root) && CreatedFrom(initial, root, valuefor) && name != root
    ensures RootedAt(labels + [name], parentOf[name := Some(parent)], root)
    ensures CreatedFrom(initial[name := ValueFor(valuefor, name)], root, valuefor)
  {
  }

  ghost predicate Ready(t: AggregatingTree, rootName: string, valuefor: map<string, real>)
    reads t
  {
    t.Valid() && RootedAt(t.labels, t.parentOf, rootName) && CreatedFrom(t.initial, rootName, valuefor)
  }

  /** One part of a path: the fullname grows by the part, and a new one is
    * registered below the previous prefix (below the root when that prefix
    * is not a node) with its `valuefor` value. */
  method AddPart(t: AggregatingTree, rootName: string, separator: string, valuefor: map<string, real>,
                 parentname: string, part: string) returns (fullname: string)
    requires Ready(t, rootName, valuefor)
    modifies t
    ensures Ready(t, rootName, valuefor)
    ensures fullname == Extend(parentname, separator, part)
    ensures t.value.Keys == old(t.value).Keys + {fullname}
    ensures fullname !in old(t.value) ==> t.parentOf[fullname] == Some(if parentname in old(t.value) then parentname else rootName)
  {
    fullname := Extend(parentname, separator, part);
    var parent := rootName;
    if parentname in t.value {
      parent := parentname;
    }
    var value := ValueFor(valuefor, fullname);
    if fullname !in t.value {
      AddKeepsRooted(t.labels, t.parentOf, t.initial, rootName, valuefor, fullname, parent);
    }
    var created := t.AddNode(fullname, value, Some(parent));
  }

  /** The parts of one path, in order. */
  method AddPath(t: AggregatingTree, rootName: string, separator: string, valuefor: map<string, real>, name: string)
    requires |separator| > 0 && Ready(t, rootName, valuefor)
    modifies t
    ensures Ready(t, rootName, valuefor)
    ensures t.value.Keys == old(t.value).Keys + Visited(Split(name, separator), separator)
  {
    var parts := Split(name, separator);
    var fullname := "";
    var i := 0;
    while i < |parts|
      invariant 0 <= i <= |parts|
      invariant Ready(t, rootName, valuefor)
      invariant fullname == Acc(parts[..i], separator)
      invariant t.value.Keys == old(t.value).Keys + Visited(parts[..i], separator)
    {
      ghost var before := t.value.Keys;
      fullname := AddPart(t, rootName, separator, valuefor, fullname, parts[i]);
      VisitedGrows(old(t.value).Keys, before, t.value.Keys, parts, separator, i, fullname);
      i := i + 1;
    }
    assert parts[..|parts|] == parts;
  }

  /** The paths, in order. */
  method AddPaths(t: AggregatingTree, rootName: string, separator: string, valuefor: map<string, real>, nameslist: seq<string>)
    requires |separator| > 0 && Ready(t, rootName, valuefor)
    modifies t
    ensures Ready(t, rootName, valuefor)
    ensures t.value.Keys == old(t.value).Keys + PathSet(nameslist, separator, separator)
  {
    for n := 0 to |nameslist|
      invariant Ready(t, rootName, valuefor)
      invariant t.value.Keys == old(t.value).Keys + PathSet(nameslist[..n], separator, separator)
    {
      ghost var before := t.value.Keys;
      AddPath(t, rootName, separator, valuefor, nameslist[n]);
      PathSetGrows(old(t.value).Keys, before, t.value.Keys, nameslist, separator, separator, n);
    }
    assert nameslist[..|nameslist|] == nameslist;
  }

  /** The closing loop over `nodes.items()`: one label, parent and value
    * per node, in registration order. The parent is the parent's name, or
    * None for the root. */
  method Outputs(t: AggregatingTree) returns (labels: seq<string>, parents: seq<Option<string>>, values: seq<real>)
    requires t.Valid()
    ensures labels == t.labels && |parents| == |labels| && |values| == |labels|
    ensures forall i :: 0 <= i < |labels| ==> parents[i] == t.parentOf[labels[i]] && values[i] == t.value[labels[i]]
  {
    labels, parents, values := [], [], [];
    for i := 0 to |t.labels|
      invariant labels == t.labels[..i] && |parents| == i && |values| == i
      invariant forall m :: 0 <= m < i ==> parents[m] == t.parentOf[t.labels[m]] && values[m] == t.value[t.labels[m]]
    {
      var key := t.labels[i];
      labels := labels + [key];
      parents := parents + [t.parentOf[key]];
      values := values + [t.value[key]];
    }
  }

  /** The tree with only the root, created with value 0 and no parent. */
  method NewRooted(rootName: string, valuefor: map<string, real>) returns (t: AggregatingTree)
    ensures fresh(t) && Ready(t, rootName, valuefor) && t.value.Keys == {rootName}
  {
    t := new AggregatingTree();
    var root := t.AddNode(rootName, 0.0, None);
  }

  /** `createTreemapFromList`. The root comes first and alone has no
    * parent; every prefix of every path is a node exactly once; every value
    * is the sum of the `valuefor` values over the node's subtree, so the
    * root's value is the sum over all the other nodes. */
  method CreateTreemapFromList(nameslist: seq<string>, rootName: string, separator: string, valuefor: map<string, real>)
    returns (t: AggregatingTree, labels: seq<string>, parents: seq<Option<string>>, values: seq<real>)
    requires |separator| > 0
    ensures fresh(t) && Ready(t, rootName, valuefor)
    ensures t.value.Keys == {rootName} + PathSet(nameslist, separator, separator)
    ensures labels == t.labels && |labels| >= 1 && labels[0] == rootName
    ensures |parents| == |labels| && |values| == |labels|
    ensures parents[0] == None && forall i :: 1 <= i < |labels| ==> parents[i].Some?
    ensures forall i :: 0 <= i < |labels| ==>
              values[i] == SubtreeSum(t.labels, t.initial, t.parentOf, t.depth, labels[i])
    ensures values[0] == Total(t.labels, t.initial)
  {
    t := NewRooted(rootName, valuefor);
    AddPaths(t, rootName, separator, valuefor, nameslist);
    labels, parents, values := Outputs(t);
    RootedTotals(t.labels, t.parentOf, t.initial, t.depth, t.pos, rootName);
  }

  // ---------------------------------------------------------------- the 'None' label

  /** The parent label as the source writes it: `str(parent_of[key])`,
    * mapped to None when that string is 'None'. */
  function ParentLabelAsWritten(parent: Option<string>): (r: Option<string>)
    ensures parent.Some? && parent.value != "None" ==> r == parent
    ensures parent.None? ==> r == None
  {
    var pname := if parent.None? then "None" else parent.value;
    if pname == "None" then None else Some(pname)
  }

  /** A node named 'None' loses its children: they are listed as if they
    * had no parent, like the root. */
  lemma NoneNamedParentLost()
    ensures ParentLabelAsWritten(Some("None")) == None
    ensures ParentLabelAsWritten(Some("None")) != Some("None")
  {
  }
}
