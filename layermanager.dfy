/** The `layers` manager of src/vois/vuetify/layers.py: the non-base layers
  * of a map, listed top layer first, each with the position of its layer in
  * the map (`mapindex`) and a layer id that never changes, plus the two
  * dictionaries `layerid2mapindex` and `mapindex2layerid`. The list is the
  * one a `sortableList` reorders in place, so every move and removal is
  * modelled together with the list's own step. The tile service behind a
  * layer and the widgets are not modelled. */
module LayerManager {
  import opened Wrappers
  import opened SortableList

  /** An ipyleaflet layer, as far as the manager reads it. */
  datatype MapLayer = MapLayer(name: string, base: bool, visible: bool, opacity: real)

  /** One item of the layer list. */
  datatype LayerItem = LayerItem(name: string, base: bool, visible: bool, opacity: real, mapindex: nat, layerid: nat)

  /** The map layer an item describes. */
  function AsMap(item: LayerItem): MapLayer {
    MapLayer(item.name, item.base, item.visible, item.opacity)
  }

  /** The collection loop of `__init__` over the map layers: every non-base
    * layer is put in front of the list, with its map position and the next
    * layer id. */
  function Collect(ml: seq<MapLayer>): seq<LayerItem>
    decreases |ml|
  {
    if ml == [] then []
    else
      var c := Collect(ml[..|ml| - 1]);
      var l := ml[|ml| - 1];
      if l.base then c else [LayerItem(l.name, l.base, l.visible, l.opacity, |ml| - 1, |c|)] + c
  }

  /** The collected list is in reverse map order, each item copies a
    * non-base map layer at its `mapindex`, and the ids count 0, 1, 2, ...
    * in map order (so the top item has the largest). */
  lemma {:induction false} CollectSpec(ml: seq<MapLayer>)
    ensures var c := Collect(ml);
      && |c| <= |ml|
      && (forall p :: 0 <= p < |c| ==>
            c[p].layerid == |c| - 1 - p && c[p].mapindex < |ml| &&
            ml[c[p].mapindex] == AsMap(c[p]) && !c[p].base)
      && (forall p, q :: 0 <= p < q < |c| ==> c[p].mapindex > c[q].mapindex)
    decreases |ml|
  {
    if ml != [] {
      var init := ml[..|ml| - 1];
      CollectSpec(init);
      var c0 := Collect(init);
      forall p | 0 <= p < |c0| ensures init[c0[p].mapindex] == ml[c0[p].mapindex] {
      }
    }
  }

  /** The map the manager expects: a single base layer, at the bottom. */
  predicate OnlyFirstBase(ml: seq<MapLayer>) {
    |ml| >= 1 && ml[0].base && forall i :: 1 <= i < |ml| ==> !ml[i].base
  }

  /** On such a map every layer above the base one is collected, and the
    * item at position p describes the map layer at |list| - p. */
  lemma {:induction false} CollectOnlyFirstBase(ml: seq<MapLayer>)
    requires OnlyFirstBase(ml)
    ensures var c := Collect(ml);
      && |c| == |ml| - 1
      && forall p :: 0 <= p < |c| ==> c[p].mapindex == |c| - p && ml[|c| - p] == AsMap(c[p])
    decreases |ml|
  {
    if |ml| > 1 {
      var init := ml[..|ml| - 1];
      assert OnlyFirstBase(init);
      CollectOnlyFirstBase(init);
      CollectSpec(ml);
    }
  }

  /** `indexLayers`' renumbering: the item at position p gets mapindex |ls| - p. */
  function Reindexed(ls: seq<LayerItem>): (r: seq<LayerItem>)
    ensures |r| == |ls|
  {
    seq(|ls|, p requires 0 <= p < |ls| => ls[p].(mapindex := |ls| - p))
  }

  /** The layer ids, top first. */
  function Ids(ls: seq<LayerItem>): (r: seq<nat>)
    ensures |r| == |ls|
  {
    seq(|ls|, p requires 0 <= p < |ls| => ls[p].layerid)
  }

  predicate Distinct(ids: seq<nat>) {
    forall p, q :: 0 <= p < q < |ids| ==> ids[p] != ids[q]
  }

  /** `layerid2mapindex` after the first i steps of `indexLayers`. */
  function IdIndex(ids: seq<nat>, i: nat): map<nat, int>
    requires i <= |ids|
  {
    if i == 0 then map[] else IdIndex(ids, i - 1)[ids[i - 1] := |ids| - (i - 1)]
  }

  /** `mapindex2layerid` after the first i steps of `indexLayers`. */
  function IndexId(ids: seq<nat>, i: nat): map<int, nat>
    requires i <= |ids|
  {
    if i == 0 then map[] else IndexId(ids, i - 1)[|ids| - (i - 1) := ids[i - 1]]
  }

  /** The two dictionaries describe the list: the ids are the list's, the
    * map positions are 1 .. |ls|, and the item at p has position |ls| - p. */
  ghost predicate Indexed(ids: seq<nat>, l2m: map<nat, int>, m2l: map<int, nat>) {
    && (forall id :: id in l2m <==> id in ids)
    && (forall m :: m in m2l <==> 1 <= m <= |ids|)
    && (forall p :: 0 <= p < |ids| ==> l2m[ids[p]] == |ids| - p && m2l[|ids| - p] == ids[p])
  }

  lemma {:induction false} IndexedPrefix(ids: seq<nat>, i: nat)
    requires i <= |ids| && Distinct(ids)
    ensures forall id :: id in IdIndex(ids, i) <==> id in ids[..i]
    ensures forall m :: m in IndexId(ids, i) <==> |ids| - i < m <= |ids|
    ensures forall p :: 0 <= p < i ==> IdIndex(ids, i)[ids[p]] == |ids| - p && IndexId(ids, i)[|ids| - p] == ids[p]
  {
    if i > 0 {
      IndexedPrefix(ids, i - 1);
      assert ids[..i] == ids[..i - 1] + [ids[i - 1]];
    }
  }

  /** With distinct ids, `indexLayers` makes the dictionaries describe the list. */
  lemma IndexedByIndexLayers(ids: seq<nat>)
    requires Distinct(ids)
    ensures Indexed(ids, IdIndex(ids, |ids|), IndexId(ids, |ids|))
  {
    IndexedPrefix(ids, |ids|);
    assert ids[..|ids|] == ids;
  }

  /** Dictionaries that describe a list are mutual inverses. */
  lemma IndexedInverse(ids: seq<nat>, l2m: map<nat, int>, m2l: map<int, nat>)
    requires Indexed(ids, l2m, m2l)
    ensures forall id :: id in l2m ==> l2m[id] in m2l && m2l[l2m[id]] == id
    ensures forall m :: m in m2l ==> m2l[m] in l2m && l2m[m2l[m]] == m
  {
    forall id | id in l2m ensures l2m[id] in m2l && m2l[l2m[id]] == id {
      var p :| 0 <= p < |ids| && ids[p] == id;
    }
    forall m | m in m2l ensures m2l[m] in l2m && l2m[m2l[m]] == m {
      var p := |ids| - m;
      assert ids[p] == m2l[m];
    }
  }

  /** The map and the list agree: the base layer at the bottom of the map,
    * and above it, from the top down, one map layer per item. */
  ghost predicate Aligned(ml: seq<MapLayer>, ls: seq<LayerItem>) {
    && |ml| == |ls| + 1
    && ml[0].base
    && forall p :: 0 <= p < |ls| ==> ls[p].mapindex == |ls| - p && ml[|ls| - p] == AsMap(ls[p]) && !ls[p].base
  }

  /** Moving item i below item i + 1 and swapping their map layers keeps
    * the map and the list aligned. */
  lemma SwapAligned(ml: seq<MapLayer>, ls: seq<LayerItem>, i: nat)
    requires Aligned(ml, ls) && i + 1 < |ls|
    ensures Aligned(Swap(ml, |ls| - i, |ls| - i - 1), Reindexed(Swap(ls, i, i + 1)))
  {
  }

  /** Removing item i and its map layer keeps them aligned. */
  lemma RemoveAligned(ml: seq<MapLayer>, ls: seq<LayerItem>, i: nat)
    requires Aligned(ml, ls) && i < |ls|
    ensures Aligned(RemoveAt(ml, |ls| - i), Reindexed(RemoveAt(ls, i)))
  {
    var ml', ls' := RemoveAt(ml, |ls| - i), Reindexed(RemoveAt(ls, i));
    forall p | 0 <= p < |ls'| ensures ml'[|ls'| - p] == AsMap(ls'[p]) {
      if p < i {
        assert ml'[|ls'| - p] == ml[|ls| - p];
      } else {
        assert ml'[|ls'| - p] == ml[|ls| - (p + 1)];
      }
    }
  }

  /** Every id is below the next one to hand out. */
  ghost predicate IdsBelow(ids: seq<nat>, next: nat) {
    forall p :: 0 <= p < |ids| ==> ids[p] < next
  }

  /** What the manager keeps true between events: the map and the list
    * aligned, the ids distinct and below the next id, and the dictionaries
    * describing the list. */
  ghost predicate Consistent(ml: seq<MapLayer>, ls: seq<LayerItem>, next: nat, l2m: map<nat, int>, m2l: map<int, nat>) {
    && Aligned(ml, ls)
    && Distinct(Ids(ls))
    && IdsBelow(Ids(ls), next)
    && Indexed(Ids(ls), l2m, m2l)
  }

  lemma ReindexedIds(ls: seq<LayerItem>)
    ensures Ids(Reindexed(ls)) == Ids(ls)
  {
  }

  lemma SwapIds(ls: seq<LayerItem>, i: nat, j: nat)
    requires i < |ls| && j < |ls|
    ensures Ids(Swap(ls, i, j)) == Swap(Ids(ls), i, j)
  {
  }

  /** Reordering two ids keeps them distinct and below the next id. */
  lemma SwapDistinct(ids: seq<nat>, i: nat, j: nat, next: nat)
    requires i < |ids| && j < |ids| && Distinct(ids) && IdsBelow(ids, next)
    ensures Distinct(Swap(ids, i, j)) && IdsBelow(Swap(ids, i, j), next)
  {
    var r := Swap(ids, i, j);
    forall p, q | 0 <= p < q < |r| ensures r[p] != r[q] {
      var p', q' := Moved(p, i, j), Moved(q, i, j);
      assert r[p] == ids[p'] && r[q] == ids[q'];
    }
  }

  /** In a consistent manager rows i and i + 1 sit at map positions
    * |ls| - i and |ls| - i - 1; swapping them, swapping those map layers and
    * running `indexLayers` keeps it consistent. */
  lemma MoveKeeps(ml: seq<MapLayer>, ls: seq<LayerItem>, next: nat, l2m: map<nat, int>, m2l: map<int, nat>, i: nat)
    requires Consistent(ml, ls, next, l2m, m2l) && i + 1 < |ls|
    ensures ls[i].mapindex == |ls| - i < |ml| && ls[i + 1].mapindex == |ls| - i - 1
    ensures var ls' := Swap(ls, i, i + 1);
      && Consistent(Swap(ml, |ls| - i, |ls| - i - 1), Reindexed(ls'), next, IdIndex(Ids(ls'), |ls|), IndexId(Ids(ls'), |ls|))
  {
    var ls' := Swap(ls, i, i + 1);
    SwapAligned(ml, ls, i);
    SwapIds(ls, i, i + 1);
    ReindexedIds(ls');
    SwapIndexed(Ids(ls), i, next);
  }

  /** The id side of a move: still distinct, below the next id, and
    * described by the rebuilt dictionaries. */
  lemma SwapIndexed(ids: seq<nat>, i: nat, next: nat)
    requires i + 1 < |ids| && Distinct(ids) && IdsBelow(ids, next)
    ensures var ids' := Swap(ids, i, i + 1);
      Distinct(ids') && IdsBelow(ids', next) && Indexed(ids', IdIndex(ids', |ids'|), IndexId(ids', |ids'|))
  {
    SwapDistinct(ids, i, i + 1, next);
    IndexedByIndexLayers(Swap(ids, i, i + 1));
  }

  /** In a consistent manager row i sits at map position |ls| - i; removing
    * both and running `indexLayers` keeps it consistent. */
  lemma RemoveKeeps(ml: seq<MapLayer>, ls: seq<LayerItem>, next: nat, l2m: map<nat, int>, m2l: map<int, nat>, i: nat)
    requires Consistent(ml, ls, next, l2m, m2l) && i < |ls|
    ensures ls[i].mapindex == |ls| - i && |ml| == |ls| + 1
    ensures var ls' := RemoveAt(ls, i);
      Consistent(RemoveAt(ml, |ls| - i), Reindexed(ls'), next, IdIndex(Ids(ls'), |ls'|), IndexId(Ids(ls'), |ls'|))
  {
    var ls' := RemoveAt(ls, i);
    RemoveAligned(ml, ls, i);
    assert Ids(ls') == RemoveAt(Ids(ls), i);
    ReindexedIds(ls');
    IndexedByIndexLayers(Ids(ls'));
  }

  /** Adding a layer on top of the list and of the map, with the next id,
    * and extending both dictionaries keeps the manager consistent. */
  lemma AddKeeps(ml: seq<MapLayer>, ls: seq<LayerItem>, next: nat, l2m: map<nat, int>, m2l: map<int, nat>,
                 name: string, visible: bool, opacity: real)
    requires Consistent(ml, ls, next, l2m, m2l)
    ensures Consistent(ml + [MapLayer(name, false, visible, opacity)],
                       [LayerItem(name, false, visible, opacity, |ml|, next)] + ls,
                       next + 1, l2m[next := |ml|], m2l[|ml| := next])
  {
    var ls' := [LayerItem(name, false, visible, opacity, |ml|, next)] + ls;
    assert Ids(ls') == [next] + Ids(ls);
    assert next !in Ids(ls);
  }

  /** In a consistent manager `layerid2mapindex` leads from the item at row
    * p to its map layer, and changing the item and that layer alike keeps it
    * consistent. */
  lemma LookupKeeps(ml: seq<MapLayer>, ls: seq<LayerItem>, next: nat, l2m: map<nat, int>, m2l: map<int, nat>,
                    p: nat, item: LayerItem)
    requires Consistent(ml, ls, next, l2m, m2l) && p < |ls|
    requires item.mapindex == ls[p].mapindex && item.layerid == ls[p].layerid && item.base == ls[p].base
    ensures ls[p].layerid in l2m && l2m[ls[p].layerid] == |ls| - p < |ml| && ml[|ls| - p] == AsMap(ls[p])
    ensures Consistent(ml[|ls| - p := AsMap(item)], ls[p := item], next, l2m, m2l)
  {
    assert Ids(ls)[p] == ls[p].layerid;
    assert Ids(ls[p := item]) == Ids(ls);
  }

  /** A map whose only base layer is at the bottom gives a consistent
    * manager once the collected list is indexed. */
  lemma InitKeeps(ml: seq<MapLayer>)
    requires OnlyFirstBase(ml)
    ensures var c := Collect(ml);
      Consistent(ml, Reindexed(c), |c|, IdIndex(Ids(c), |c|), IndexId(Ids(c), |c|))
  {
    var c := Collect(ml);
    CollectSpec(ml);
    CollectOnlyFirstBase(ml);
    assert Distinct(Ids(c));
    ReindexedIds(c);
    IndexedByIndexLayers(Ids(c));
  }

  /** The collection loop of `__init__`. */
  method CollectLayers(ml: seq<MapLayer>) returns (layers: seq<LayerItem>, nextlayerid: nat)
    ensures layers == Collect(ml) && nextlayerid == |layers|
  {
    layers := [];
    nextlayerid := 0;
    for index := 0 to |ml|
      invariant layers == Collect(ml[..index]) && nextlayerid == |layers|
    {
      assert ml[..index + 1][..index] == ml[..index];
      var layer := ml[index];
      if !layer.base {
        layers := [LayerItem(layer.name, layer.base, layer.visible, layer.opacity, index, nextlayerid)] + layers;
        nextlayerid := nextlayerid + 1;
      }
    }
    assert ml[..|ml|] == ml;
  }

  class Layers {
    var maplayers: seq<MapLayer>
    var layers: seq<LayerItem>
    var nextlayerid: nat
    var layerid2mapindex: map<nat, int>
    var mapindex2layerid: map<int, nat>

    ghost predicate Valid()
      reads this
    {
      Consistent(maplayers, layers, nextlayerid, layerid2mapindex, mapindex2layerid)
    }

    /** `layers(m)`: the collection loop, then `indexLayers`. On a map whose
      * only base layer is at the bottom the manager starts valid. */
    constructor(ml: seq<MapLayer>)
      ensures maplayers == ml
      ensures layers == Reindexed(Collect(ml)) && nextlayerid == |Collect(ml)|
      ensures OnlyFirstBase(ml) ==> Valid()
    {
      var collected, next := CollectLayers(ml);
      maplayers := ml;
      layers := collected;
      nextlayerid := next;
      layerid2mapindex := map[];
      mapindex2layerid := map[];
      new;
      IndexLayers();
      if OnlyFirstBase(ml) {
        InitKeeps(ml);
      }
    }

    /** The state `indexLayers` leaves after the list became `ls` and the map `ml`. */
    ghost predicate Reindexing(ls: seq<LayerItem>, ml: seq<MapLayer>)
      reads this
    {
      && maplayers == ml
      && layers == Reindexed(ls)
      && layerid2mapindex == IdIndex(Ids(ls), |ls|)
      && mapindex2layerid == IndexId(Ids(ls), |ls|)
    }

    /** `indexLayers`: the items get mapindex |layers|, |layers| - 1, ..., 1
      * from the top, and the dictionaries are rebuilt from them. */
    method IndexLayers()
      modifies this`layers, this`layerid2mapindex, this`mapindex2layerid
      ensures layers == Reindexed(old(layers))
      ensures layerid2mapindex == IdIndex(Ids(old(layers)), |layers|)
      ensures mapindex2layerid == IndexId(Ids(old(layers)), |layers|)
    {
      ghost var ids := Ids(layers);
      layerid2mapindex := map[];
      mapindex2layerid := map[];
      var mapindex := |layers|;
      for i := 0 to |layers|
        invariant |layers| == |old(layers)| && mapindex == |layers| - i
        invariant forall p :: 0 <= p < i ==> layers[p] == Reindexed(old(layers))[p]
        invariant forall p :: i <= p < |layers| ==> layers[p] == old(layers)[p]
        invariant layerid2mapindex == IdIndex(ids, i) && mapindex2layerid == IndexId(ids, i)
      {
        layers := layers[i := layers[i].(mapindex := mapindex)];
        mapindex := mapindex - 1;
        layerid2mapindex := layerid2mapindex[layers[i].layerid := layers[i].mapindex];
        mapindex2layerid := mapindex2layerid[layers[i].mapindex := layers[i].layerid];
      }
      assert layers == Reindexed(old(layers));
    }

    /** The down button of row `index`: the list swaps the row with the one
      * below it (an `IndexError` for the last row, before any change), then
      * `_onmovedown` swaps the map layers at the two rows' positions (an
      * `IndexError` past the end of the map, after the rows have swapped)
      * and re-indexes. */
    method MoveDown(index: nat) returns (status: Status)
      modifies this`maplayers, this`layers, this`layerid2mapindex, this`mapindex2layerid
      ensures index + 1 >= |old(layers)| ==>
                status == Failure(IndexError) && maplayers == old(maplayers) && layers == old(layers)
      ensures index + 1 < |old(layers)| ==>
                var a, b := old(layers)[index + 1].mapindex, old(layers)[index].mapindex;
                var swapped := Swap(old(layers), index, index + 1);
                && (status.Success? <==> a < |old(maplayers)| && b < |old(maplayers)|)
                && (status.Failure? ==> status.error == IndexError && layers == swapped && maplayers == old(maplayers))
                && (status.Success? ==> Reindexing(swapped, Swap(old(maplayers), b, a)))
    {
      if index + 1 >= |layers| {
        return Failure(IndexError);
      }
      layers := Swap(layers, index, index + 1);
      var a := layers[index].mapindex;
      var b := layers[index + 1].mapindex;
      if a >= |maplayers| || b >= |maplayers| {
        return Failure(IndexError);
      }
      maplayers := Swap(maplayers, b, a);
      IndexLayers();
      status := Success;
    }

    /** The up button of row `index` (disabled on the first row): the list
      * swaps the row with the one above it, then `_onmoveup` swaps the map
      * layers at the two rows' positions and re-indexes. */
    method MoveUp(index: nat) returns (status: Status)
      requires index >= 1
      modifies this`maplayers, this`layers, this`layerid2mapindex, this`mapindex2layerid
      ensures index >= |old(layers)| ==>
                status == Failure(IndexError) && maplayers == old(maplayers) && layers == old(layers)
      ensures index < |old(layers)| ==>
                var a, b := old(layers)[index - 1].mapindex, old(layers)[index].mapindex;
                var swapped := Swap(old(layers), index - 1, index);
                && (status.Success? <==> a < |old(maplayers)| && b < |old(maplayers)|)
                && (status.Failure? ==> status.error == IndexError && layers == swapped && maplayers == old(maplayers))
                && (status.Success? ==> Reindexing(swapped, Swap(old(maplayers), a, b)))
    {
      if index >= |layers| {
        return Failure(IndexError);
      }
      layers := Swap(layers, index - 1, index);
      var a := layers[index].mapindex;
      var b := layers[index - 1].mapindex;
      if a >= |maplayers| || b >= |maplayers| {
        return Failure(IndexError);
      }
      maplayers := Swap(maplayers, a, b);
      IndexLayers();
      status := Success;
    }

    /** The remove button of row `index`: `_onremoving` drops the item's map
      * layer (a slice, so a position past the end drops nothing), the list
      * deletes the row, and `_onremoved` re-indexes. */
    method Remove(index: nat) returns (status: Status)
      modifies this`maplayers, this`layers, this`layerid2mapindex, this`mapindex2layerid
      ensures index >= |old(layers)| ==>
                status == Failure(IndexError) && maplayers == old(maplayers) && layers == old(layers)
      ensures index < |old(layers)| ==>
                var m := old(layers)[index].mapindex;
                status == Success &&
                Reindexing(RemoveAt(old(layers), index), if m < |old(maplayers)| then RemoveAt(old(maplayers), m) else old(maplayers))
    {
      if index >= |layers| {
        return Failure(IndexError);
      }
      var indexinmap := layers[index].mapindex;
      if indexinmap < |maplayers| {
        maplayers := RemoveAt(maplayers, indexinmap);
      }
      layers := RemoveAt(layers, index);
      IndexLayers();
      status := Success;
    }

    /** `addNewLayer` for an edited layer: a non-base item on top of the
      * list, with the next id and the map position past the last, its tile
      * layer added at the top of the map, and both dictionaries extended. */
    method AddNewLayer(name: string, visible: bool, opacity: real)
      modifies this
      ensures nextlayerid == old(nextlayerid) + 1
      ensures layers == [LayerItem(name, false, visible, opacity, |old(maplayers)|, old(nextlayerid))] + old(layers)
      ensures maplayers == old(maplayers) + [MapLayer(name, false, visible, opacity)]
      ensures old(Valid()) ==> Valid()
    {
      ghost var valid := Valid();
      var mapindex := |maplayers|;
      var layerid := nextlayerid;
      nextlayerid := nextlayerid + 1;
      var newItem := LayerItem(name, false, visible, opacity, mapindex, layerid);
      layers := [newItem] + layers;
      maplayers := maplayers + [MapLayer(name, false, visible, opacity)];
      layerid2mapindex := layerid2mapindex[layerid := mapindex];
      mapindex2layerid := mapindex2layerid[mapindex := layerid];
      if valid {
        AddKeeps(old(maplayers), old(layers), old(nextlayerid), old(layerid2mapindex), old(mapindex2layerid), name, visible, opacity);
      }
    }

    /** The visibility switch of the item at row p: the id is looked up in
      * `layerid2mapindex` (a `KeyError` for an unknown id, before any
      * change), the item's flag flips, and then the map layer at that
      * position, indexed as Python does, takes the new flag (an `IndexError`
      * outside the map, after the item has flipped). */
    method OnVisible(p: nat) returns (status: Status)
      requires p < |layers|
      modifies this`layers, this`maplayers
      ensures var id := old(layers)[p].layerid;
        var flipped := old(layers)[p := old(layers)[p].(visible := !old(layers)[p].visible)];
        && (status.Success? <==> id in layerid2mapindex && PyIndex(|old(maplayers)|, layerid2mapindex[id]).Some?)
        && (id !in layerid2mapindex ==>
              status == Failure(KeyError) && layers == old(layers) && maplayers == old(maplayers))
        && (id in layerid2mapindex ==> layers == flipped)
        && (id in layerid2mapindex && status.Failure? ==>
              status.error == IndexError && maplayers == old(maplayers))
        && (status.Success? ==>
              var m := PyIndex(|old(maplayers)|, layerid2mapindex[id]).value;
              maplayers == old(maplayers)[m := old(maplayers)[m].(visible := !old(layers)[p].visible)])
    {
      var layerid := layers[p].layerid;
      if layerid !in layerid2mapindex {
        return Failure(KeyError);
      }
      var mapindex := layerid2mapindex[layerid];
      layers := layers[p := layers[p].(visible := !layers[p].visible)];
      var m := PyIndex(|maplayers|, mapindex);
      if m.None? {
        return Failure(IndexError);
      }
      maplayers := maplayers[m.value := maplayers[m.value].(visible := layers[p].visible)];
      status := Success;
    }

    /** The opacity slider (0 .. 10) of the item at row p: after the id
      * lookup (a `KeyError` before any change) the item gets a tenth of the
      * slider's value, and then its map layer does (an `IndexError` outside
      * the map, after the item has changed). */
    method OnOpacity(p: nat, slider: int) returns (status: Status)
      requires p < |layers|
      modifies this`layers, this`maplayers
      ensures var id, o := old(layers)[p].layerid, slider as real / 10.0;
        && (status.Success? <==> id in layerid2mapindex && PyIndex(|old(maplayers)|, layerid2mapindex[id]).Some?)
        && (id !in layerid2mapindex ==>
              status == Failure(KeyError) && layers == old(layers) && maplayers == old(maplayers))
        && (id in layerid2mapindex ==> layers == old(layers)[p := old(layers)[p].(opacity := o)])
        && (id in layerid2mapindex && status.Failure? ==>
              status.error == IndexError && maplayers == old(maplayers))
        && (status.Success? ==>
              var m := PyIndex(|old(maplayers)|, layerid2mapindex[id]).value;
              maplayers == old(maplayers)[m := old(maplayers)[m].(opacity := o)])
    {
      var layerid := layers[p].layerid;
      if layerid !in layerid2mapindex {
        return Failure(KeyError);
      }
      var mapindex := layerid2mapindex[layerid];
      layers := layers[p := layers[p].(opacity := slider as real / 10.0)];
      var m := PyIndex(|maplayers|, mapindex);
      if m.None? {
        return Failure(IndexError);
      }
      maplayers := maplayers[m.value := maplayers[m.value].(opacity := layers[p].opacity)];
      status := Success;
    }
  }
}
