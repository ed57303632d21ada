/** `createIpytreeFromList` and `createIpytreeFromDF2Columns`
  * (src/vois/ipytrees.py): the nested `addNode` registers each name once,
  * remembers its parent and adds its value to every ancestor below the
  * `Tree` widget. The `Tree` is the parent `None` of the registry; a
  * non-empty `rootName` gives a root node directly below it. */
module IpyTrees {
  import opened Wrappers
  import opened PyStrings
  import opened Paths
  import opened PathTrees

  /** `root = tree`, or the root node when `rootName` is non-empty. */
  function RootOf(rootName: string): (r: Option<string>)
    ensures r.Some? <==> |rootName| > 0
    ensures r.Some? ==> r.value == rootName
  {
    if |rootName| > 0 then Some(rootName) else None
  }

  /** The names the root contributes: none without a root node. */
  function RootNames(root: Option<string>): set<string> {
    if root.Some? then {root.value} else {}
  }

  /** With a root node, only it lacks a parent node, and it comes first;
    * without one, every node may hang directly below the `Tree`. */
  ghost predicate RootedOpt(labels: seq<string>, parentOf: map<string, Option<string>>, root: Option<string>) {
    root.Some? ==> RootedAt(labels, parentOf, root.value)
  }

  /** Registering a name other than the root keeps that shape, provided the
    * new node gets a parent node whenever there is a root. */
  lemma AddKeepsRootedOpt(labels: seq<string>, parentOf: map<string, Option<string>>, root: Option<string>,
                          name: string, parent: Option<string>)
    requires RootedOpt(labels, parentOf, root) && root != Some(name) && (root.Some? ==> parent.Some?)
    ensures RootedOpt(labels + [name], parentOf[name := parent], root)
  {
  }

  // ---------------------------------------------------------------- createIpytreeFromList

  /** Every node was created with its `valuefor` value, the root with 0. */
  ghost predicate StartedFrom(initial: map<string, real>, root: Option<string>, valuefor: map<string, real>) {
    forall k {:trigger initial[k]} :: k in initial ==> initial[k] == if root == Some(k) then 0.0 else ValueFor(valuefor, k)
  }

  lemma AddKeepsStarted(initial: map<string, real>, root: Option<string>, valuefor: map<string, real>, name: string)
    requires StartedFrom(initial, root, valuefor) && root != Some(name)
    ensures StartedFrom(initial[name := ValueFor(valuefor, name)], root, valuefor)
  {
  }

  ghost predicate ListReady(t: AggregatingTree, root: Option<string>, valuefor: map<string, real>)
    reads t
  {
    t.Valid() && RootedOpt(t.labels, t.parentOf, root) && StartedFrom(t.initial, root, valuefor)
  }

  /** The start: the empty registry, then `addNode(rootName, 0.0, tree)`
    * when `rootName` is non-empty. */
  method NewListTree(rootName: string, valuefor: map<string, real>) returns (t: AggregatingTree, root: Option<string>)
    ensures fresh(t) && root == RootOf(rootName) && ListReady(t, root, valuefor)
    ensures t.value.Keys == RootNames(root)
  {
    t := new AggregatingTree();
    root := RootOf(rootName);
    if root.Some? {
      var created := t.AddNode(rootName, 0.0, None);
    }
  }

  /** One part: the fullname grows by the part joined with '.', whatever
    * the separator; the parent is the node of the previous fullname when
    * there is one, else the root (the `Tree` itself without a root node). */
  method AddPart(t: AggregatingTree, root: Option<string>, valuefor: map<string, real>,
                 parentname: string, part: string) returns (fullname: string)
    requires ListReady(t, root, valuefor)
    modifies t
    ensures ListReady(t, root, valuefor)
    ensures fullname == Extend(parentname, ".", part)
    ensures t.value.Keys == old(t.value).Keys + {fullname}
    ensures fullname !in old(t.value) ==>
              t.parentOf[fullname] == (if parentname in old(t.value) then Some(parentname) else root) &&
              t.initial[fullname] == ValueFor(valuefor, fullname)
  {
    fullname := Extend(parentname, ".", part);
    var parent := root;
    if parentname in t.value {
      parent := Some(parentname);
    }
    var value := ValueFor(valuefor, fullname);
    if fullname !in t.value {
      AddKeepsRootedOpt(t.labels, t.parentOf, root, fullname, parent);
      AddKeepsStarted(t.initial, root, valuefor, fullname);
    }
    var created := t.AddNode(fullname, value, parent);
  }

  /** The parts of one name, split at the separator. */
  method AddPath(t: AggregatingTree, root: Option<string>, separator: string, valuefor: map<string, real>, name: string)
    requires |separator| > 0 && ListReady(t, root, valuefor)
    modifies t
    ensures ListReady(t, root, valuefor)
    ensures t.value.Keys == old(t.value).Keys + Visited(Split(name, separator), ".")
  {
    var parts := Split(name, separator);
    var fullname := "";
    var i := 0;
    while i < |parts|
      invariant 0 <= i <= |parts|
      invariant ListReady(t, root, valuefor)
      invariant fullname == Acc(parts[..i], ".")
      invariant t.value.Keys == old(t.value).Keys + Visited(parts[..i], ".")
    {
      ghost var before := t.value.Keys;
      fullname := AddPart(t, root, valuefor, fullname, parts[i]);
      VisitedGrows(old(t.value).Keys, before, t.value.Keys, parts, ".", i, fullname);
      i := i + 1;
    }
    assert parts[..|parts|] == parts;
  }

  /** `createIpytreeFromList` up to the widget settings: every prefix of
    * every name, joined with '.', is a node exactly once, with the root (if
    * any) first and alone below the `Tree`; every node's value is the sum of
    * the `valuefor` values over its subtree. */
  method CreateIpytreeFromList(nameslist: seq<string>, rootName: string, separator: string, valuefor: map<string, real>)
    returns (t: AggregatingTree, root: Option<string>)
    requires |separator| > 0
    ensures fresh(t) && root == RootOf(rootName) && ListReady(t, root, valuefor)
    ensures t.value.Keys == RootNames(root) + PathSet(nameslist, separator, ".")
    ensures forall k :: k in t.value ==> t.value[k] == SubtreeSum(t.labels, t.initial, t.parentOf, t.depth, k)
    ensures root.Some? ==> t.value[root.value] == Total(t.labels, t.initial)
  {
    t, root := NewListTree(rootName, valuefor);
    for n := 0 to |nameslist|
      invariant ListReady(t, root, valuefor)
      invariant t.value.Keys == RootNames(root) + PathSet(nameslist[..n], separator, ".")
    {
      ghost var before := t.value.Keys;
      AddPath(t, root, separator, valuefor, nameslist[n]);
      PathSetGrows(RootNames(root), before, t.value.Keys, nameslist, separator, ".", n);
    }
    assert nameslist[..|nameslist|] == nameslist;
    if root.Some? {
      RootedTotals(t.labels, t.parentOf, t.initial, t.depth, t.pos, root.value);
    }
  }

  // ---------------------------------------------------------------- createIpytreeFromDF2Columns

  /** A DataFrame row: the two label columns as strings and the value
    * column, read only when `colindexValues >= 0`. */
  datatype Row = Row(parentName: string, childName: string, value: real)

  /** `float(row[colindexValues])` when there is a value column, else 0. */
  function RowValue(row: Row, hasValues: bool): real {
    if hasValues then row.value else 0.0
  }

  /** The labels of both columns over all rows. */
  function RowNames(rows: seq<Row>): set<string>
    decreases |rows|
  {
    if rows == [] then {}
    else RowNames(rows[..|rows| - 1]) + {rows[|rows| - 1].parentName} + {rows[|rows| - 1].childName}
  }

  /** A loop over the rows that registers both labels of each keeps "the
    * keys are the old ones plus the labels seen so far". */
  lemma RowNamesGrows(base: set<string>, before: set<string>, after: set<string>, rows: seq<Row>, i: nat)
    requires i < |rows| && before == base + RowNames(rows[..i])
    requires after == before + {rows[i].parentName} + {rows[i].childName}
    ensures after == base + RowNames(rows[..i + 1])
  {
    assert rows[..i + 1][..i] == rows[..i];
  }

  ghost predicate ColumnsReady(t: AggregatingTree, root: Option<string>)
    reads t
  {
    t.Valid() && RootedOpt(t.labels, t.parentOf, root)
  }

  /** The start: as for the list builder, the root node created with 0. */
  method NewColumnsTree(rootName: string) returns (t: AggregatingTree, root: Option<string>)
    ensures fresh(t) && root == RootOf(rootName) && ColumnsReady(t, root)
    ensures t.value.Keys == RootNames(root)
  {
    t := new AggregatingTree();
    root := RootOf(rootName);
    if root.Some? {
      var created := t.AddNode(rootName, 0.0, None);
    }
  }

  /** `addNode(name, v, parent)` seen from the two-column builder: a new
    * name is registered below `parent` with `v`; nothing registered before
    * changes its parent or its initial value. */
  method AddUnder(t: AggregatingTree, root: Option<string>, name: string, v: real, parent: Option<string>)
    requires ColumnsReady(t, root) && (parent.Some? ==> parent.value in t.parentOf) && (root.Some? ==> parent.Some?)
    modifies t
    ensures ColumnsReady(t, root)
    ensures t.value.Keys == old(t.value).Keys + {name}
    ensures name !in old(t.value) ==> t.parentOf[name] == parent && t.initial[name] == v
    ensures forall k :: k in old(t.parentOf) ==> t.parentOf[k] == old(t.parentOf)[k] && t.initial[k] == old(t.initial)[k]
  {
    if name !in t.value {
      AddKeepsRootedOpt(t.labels, t.parentOf, root, name, parent);
    }
    var created := t.AddNode(name, v, parent);
  }

  /** One row: `addNode(parentname, 0.0, root)`, then the child below the
    * parent's node. A name already seen, in either column and below any
    * parent, is not added again. */
  method AddRow(t: AggregatingTree, root: Option<string>, row: Row, hasValues: bool)
    requires ColumnsReady(t, root)
    modifies t
    ensures ColumnsReady(t, root)
    ensures t.value.Keys == old(t.value).Keys + {row.parentName} + {row.childName}
    ensures row.parentName !in old(t.value) ==> t.parentOf[row.parentName] == root && t.initial[row.parentName] == 0.0
    ensures row.childName !in old(t.value) && row.childName != row.parentName ==>
              t.parentOf[row.childName] == Some(row.parentName) && t.initial[row.childName] == RowValue(row, hasValues)
  {
    AddUnder(t, root, row.parentName, 0.0, root);
    AddUnder(t, root, row.childName, RowValue(row, hasValues), Some(row.parentName));
  }

  /** `createIpytreeFromDF2Columns` up to the widget settings: a tree
    * holding the root (if any) and every label of both columns once (the
    * child label of one row can be the parent label of another, so the tree
    * can be deeper than two levels); a parent's value is the sum of the
    * values below it. */
  method CreateIpytreeFromDF2Columns(rows: seq<Row>, rootName: string, hasValues: bool)
    returns (t: AggregatingTree, root: Option<string>)
    ensures fresh(t) && root == RootOf(rootName) && ColumnsReady(t, root)
    ensures t.value.Keys == RootNames(root) + RowNames(rows)
    ensures forall k :: k in t.value ==> t.value[k] == SubtreeSum(t.labels, t.initial, t.parentOf, t.depth, k)
    ensures root.Some? ==> t.value[root.value] == Total(t.labels, t.initial)
  {
    t, root := NewColumnsTree(rootName);
    for i := 0 to |rows|
      invariant ColumnsReady(t, root)
      invariant t.value.Keys == RootNames(root) + RowNames(rows[..i])
    {
      ghost var before := t.value.Keys;
      AddRow(t, root, rows[i], hasValues);
      RowNamesGrows(RootNames(root), before, t.value.Keys, rows, i);
    }
    assert rows[..|rows|] == rows;
    if root.Some? {
      RootedTotals(t.labels, t.parentOf, t.initial, t.depth, t.pos, root.value);
    }
  }
}
