/** The layer and control helpers of `vois.geo.mapUtils`
  * (src/vois/geo/mapUtils.py) over a map reduced to its list of layers and
  * its list of controls. A layer is its name, its opacity and whether it is
  * a popup; a control is a widget control holding a card, identified by
  * the card's `active_class`, or any other control. */
module GeoMapUtils {
  import opened Wrappers

  datatype Layer = Layer(name: string, opacity: real, popup: bool)

  datatype Widget = Card(activeClass: string, cls: string) | OtherWidget
  datatype Control = WidgetControl(widget: Widget, position: string) | OtherControl

  /** The layers that are not popups, in order. */
  function NonPopups(s: seq<Layer>): (r: seq<Layer>)
    ensures |r| <= |s|
    decreases |s|
  {
    if s == [] then []
    else (if s[0].popup then [] else [s[0]]) + NonPopups(s[1..])
  }

  /** Exactly the non-popup layers survive, and a list without popups is
    * left as it is. */
  lemma {:induction false} NonPopupsSpec(s: seq<Layer>, x: Layer)
    ensures x in NonPopups(s) <==> x in s && !x.popup
    ensures (forall i :: 0 <= i < |s| ==> !s[i].popup) ==> NonPopups(s) == s
    decreases |s|
  {
    if s != [] {
      NonPopupsSpec(s[1..], x);
      assert s == [s[0]] + s[1..];
      if forall i :: 0 <= i < |s| ==> !s[i].popup {
        assert forall i :: 0 <= i < |s[1..]| ==> !s[1..][i].popup by {
          forall i | 0 <= i < |s[1..]| ensures !s[1..][i].popup {
            assert s[1..][i] == s[i + 1];
          }
        }
      }
    }
  }

  /** The position of the first layer with the given name. */
  function FindByName(s: seq<Layer>, name: string): (r: Option<nat>)
    ensures r.Some? ==> r.value < |s| && s[r.value].name == name
    ensures r.Some? ==> forall j :: 0 <= j < r.value ==> s[j].name != name
    ensures r.None? ==> forall j :: 0 <= j < |s| ==> s[j].name != name
    decreases |s|
  {
    if s == [] then None
    else if s[0].name == name then Some(0)
    else
      var t := FindByName(s[1..], name);
      assert forall j :: 1 <= j < |s| ==> s[j] == s[1..][j - 1];
      if t.None? then None else Some(t.value + 1)
  }

  /** `getLayer`: the first layer with the name, or `None`. */
  function GetLayer(s: seq<Layer>, name: string): (r: Option<Layer>)
    ensures r.None? <==> forall j :: 0 <= j < |s| ==> s[j].name != name
    ensures r.Some? ==> exists k :: 0 <= k < |s| && s[k] == r.value && r.value.name == name &&
                                    forall j :: 0 <= j < k ==> s[j].name != name
  {
    var k := FindByName(s, name);
    if k.None? then None else Some(s[k.value])
  }

  /** The layers after `addLayer` put `tLayer` in: in place of the first
    * layer of that name, or at the end. */
  function Placed(s: seq<Layer>, tLayer: Layer): (r: seq<Layer>)
  {
    var k := FindByName(s, tLayer.name);
    if k.Some? then s[k.value := tLayer] else s + [tLayer]
  }

  /** After placing a layer, `getLayer` of its name finds it, and the list
    * grows by one exactly when no layer had that name. */
  lemma PlacedFound(s: seq<Layer>, tLayer: Layer)
    ensures GetLayer(Placed(s, tLayer), tLayer.name) == Some(tLayer)
    ensures |Placed(s, tLayer)| == |s| + (if GetLayer(s, tLayer.name).None? then 1 else 0)
  {
    var k := FindByName(s, tLayer.name);
    var r := Placed(s, tLayer);
    if k.Some? {
      assert forall j :: 0 <= j < k.value ==> r[j].name != tLayer.name;
      assert FindByName(r, tLayer.name) == k by {
        assert r[k.value] == tLayer;
        var k2 := FindByName(r, tLayer.name);
        assert k2.Some?;
        assert !(k2.value < k.value);
        assert !(k2.value > k.value);
      }
    } else {
      assert forall j :: 0 <= j < |s| ==> r[j].name != tLayer.name;
      assert r[|s|] == tLayer;
      var k2 := FindByName(r, tLayer.name);
      assert k2.Some? && k2.value == |s|;
    }
  }

  /** The map: `m.layers` and `m.controls`. */
  class Map {
    var layers: seq<Layer>
    var controls: seq<Control>

    constructor(layers: seq<Layer>, controls: seq<Control>)
      ensures this.layers == layers && this.controls == controls
    {
      this.layers := layers;
      this.controls := controls;
    }

    /** `removeAllPopups`: the layers are walked from the last and every
      * popup removed. */
    method RemoveAllPopups()
      modifies this`layers
      ensures layers == NonPopups(old(layers))
    {
      var i := |layers|;
      while i > 0
        invariant 0 <= i <= |old(layers)|
        invariant layers == old(layers)[..i] + NonPopups(old(layers)[i..])
      {
        i := i - 1;
        assert old(layers)[i..][1..] == old(layers)[i + 1..];
        assert old(layers)[..i + 1] == old(layers)[..i] + [old(layers)[i]];
        if layers[i].popup {
          layers := layers[..i] + layers[i + 1..];
        }
      }
    }

    /** `addLayer`: popups removed, the layer renamed and given the opacity,
      * then substituted for the first layer of that name or added at the
      * end; the layer is returned. */
    method AddLayer(tLayer: Layer, name: string, opacity: real) returns (r: Layer)
      modifies this`layers
      ensures r == tLayer.(name := name, opacity := opacity)
      ensures layers == Placed(NonPopups(old(layers)), r)
    {
      RemoveAllPopups();
      r := tLayer.(name := name, opacity := opacity);
      var alreadyPresent := false;
      var i := 0;
      while i < |layers|
        invariant 0 <= i <= |layers| && layers == NonPopups(old(layers))
        invariant forall j :: 0 <= j < i ==> layers[j].name != name
      {
        if name == layers[i].name {
          layers := layers[i := r];
          alreadyPresent := true;
          break;
        }
        i := i + 1;
      }
      if !alreadyPresent {
        layers := layers + [r];
      }
    }

    /** `clear`: only the first layer remains, or none when there was none. */
    method Clear()
      modifies this`layers
      ensures |old(layers)| > 0 ==> layers == [old(layers)[0]]
      ensures |old(layers)| == 0 ==> layers == []
    {
      var baselayer: Option<Layer> := if |layers| > 0 then Some(layers[0]) else None;
      layers := [];
      if baselayer.Some? {
        layers := layers + [baselayer.value];
      }
    }

    /** `getCardByName`: the card of the first widget control whose card
      * has `active_class` equal to the name; otherwise a new card control
      * is added at the given position and its card returned. */
    method GetCardByName(name: string, position: string, cls: string) returns (card: Widget)
      modifies this`controls
      ensures card.Card? && card.activeClass == name
      ensures FindCard(old(controls), name).Some? ==>
                controls == old(controls) && card == old(controls)[FindCard(old(controls), name).value].widget
      ensures FindCard(old(controls), name).None? ==>
                card == Card(name, cls) && controls == old(controls) + [WidgetControl(card, position)]
    {
      for i := 0 to |controls|
        invariant controls == old(controls)
        invariant FindCard(controls[..i], name).None?
      {
        assert controls[..i + 1][..i] == controls[..i];
        var control := controls[i];
        if control.WidgetControl? && control.widget.Card? && control.widget.activeClass == name {
          FindCardPrefix(controls, i, name);
          return control.widget;
        }
        FindCardExtend(controls, i, name);
      }
      assert controls[..|controls|] == controls;
      card := Card(name, cls);
      controls := controls + [WidgetControl(card, position)];
    }
  }

  predicate IsCardNamed(c: Control, name: string) {
    c.WidgetControl? && c.widget.Card? && c.widget.activeClass == name
  }

  /** The position of the first control holding the named card. */
  function FindCard(cs: seq<Control>, name: string): (r: Option<nat>)
    ensures r.Some? ==> r.value < |cs| && IsCardNamed(cs[r.value], name)
    ensures r.Some? ==> forall j :: 0 <= j < r.value ==> !IsCardNamed(cs[j], name)
    ensures r.None? ==> forall j :: 0 <= j < |cs| ==> !IsCardNamed(cs[j], name)
    decreases |cs|
  {
    if cs == [] then None
    else
      var t := FindCard(cs[..|cs| - 1], name);
      if t.Some? then t
      else if IsCardNamed(cs[|cs| - 1], name) then Some(|cs| - 1)
      else None
  }

  lemma FindCardExtend(cs: seq<Control>, i: nat, name: string)
    requires i < |cs| && FindCard(cs[..i], name).None? && !IsCardNamed(cs[i], name)
    ensures FindCard(cs[..i + 1], name).None?
  {
    assert cs[..i + 1][..i] == cs[..i];
  }

  lemma FindCardPrefix(cs: seq<Control>, i: nat, name: string)
    requires i < |cs| && FindCard(cs[..i], name).None? && IsCardNamed(cs[i], name)
    ensures FindCard(cs, name) == Some(i)
  {
    assert forall j :: 0 <= j < i ==> cs[j] == cs[..i][j];
  }
}
