/** The symbol and layer helpers of `vois.templates.mapUtils`
  * (src/vois/templates/mapUtils.py): placeholder substitution in a symbol,
  * the clipping decision of `symbol2Image`, and `addLayer`, which is the
  * same algorithm as in `vois.geo.mapUtils` (it calls `add_layer` where the
  * other calls `add`). `getLayer` is the same search in both files and is
  * `GeoMapUtils.GetLayer`. */
module TemplateMapUtils {
  import opened Wrappers
  import opened GeoMapUtils

  /** A symbol member's value: a string, a number, or `None`. */
  datatype Value = Str(s: string) | Num(x: real) | NoneValue

  /** A symbol member: symbolizer, attribute and value. */
  datatype Member = Member(symbolizer: string, attribute: string, value: Value)

  /** A symbol is a list of layers, each a list of members. */
  type Symbol = seq<seq<Member>>

  /** The keyword arguments of `setColor`. */
  datatype ColorArgs = ColorArgs(color: Value, fillColor: Value, fillOpacity: Value, strokeColor: Value,
                                 strokeWidth: Value, scalemin: Value, scalemax: Value)

  /** The defaults: `'#ff0000'`, `'#ff0000'`, `1.0`, `'#ffff00'`, `0.5`,
    * `None`, `None`. */
  const DefaultArgs := ColorArgs(Str("#ff0000"), Str("#ff0000"), Num(1.0), Str("#ffff00"), Num(0.5), NoneValue, NoneValue)

  const Placeholders: seq<string> := ["COLOR", "FILL-COLOR", "FILL-OPACITY", "STROKE-COLOR", "STROKE-WIDTH", "SCALE-MIN", "SCALE-MAX"]

  predicate IsPlaceholder(v: Value) {
    v.Str? && v.s in Placeholders
  }

  /** The argument that replaces the k-th placeholder. */
  function ArgFor(a: ColorArgs, k: nat): Value
    requires k < 7
  {
    [a.color, a.fillColor, a.fillOpacity, a.strokeColor, a.strokeWidth, a.scalemin, a.scalemax][k]
  }

  /** The seven tests of `setColor`, applied one after the other to the same
    * variable, so that a replacement equal to a later placeholder is
    * replaced again. */
  function Substitute(v: Value, a: ColorArgs): Value {
    var v1 := if v == Str("COLOR") then a.color else v;
    var v2 := if v1 == Str("FILL-COLOR") then a.fillColor else v1;
    var v3 := if v2 == Str("FILL-OPACITY") then a.fillOpacity else v2;
    var v4 := if v3 == Str("STROKE-COLOR") then a.strokeColor else v3;
    var v5 := if v4 == Str("STROKE-WIDTH") then a.strokeWidth else v4;
    var v6 := if v5 == Str("SCALE-MIN") then a.scalemin else v5;
    if v6 == Str("SCALE-MAX") then a.scalemax else v6
  }

  /** A value that is no placeholder is kept; when no argument is itself a
    * placeholder, the k-th placeholder becomes the k-th argument. */
  lemma SubstituteSpec(v: Value, a: ColorArgs)
    ensures !IsPlaceholder(v) ==> Substitute(v, a) == v
    ensures (forall k :: 0 <= k < 7 ==> !IsPlaceholder(ArgFor(a, k))) ==>
              forall k :: 0 <= k < 7 && v == Str(Placeholders[k]) ==> Substitute(v, a) == ArgFor(a, k)
  {
  }

  /** The chain: a `color` argument equal to `'STROKE-COLOR'` turns a
    * `'COLOR'` value into the `strokeColor` argument. */
  lemma SubstituteChains(a: ColorArgs)
    requires a.color == Str("STROKE-COLOR") && !IsPlaceholder(a.strokeColor)
    ensures Substitute(Str("COLOR"), a) == a.strokeColor
  {
  }

  /** A member after substitution. */
  function SubstitutedMember(m: Member, a: ColorArgs): Member {
    m.(value := Substitute(m.value, a))
  }

  /** The new layer built from one layer: the substituted members whose value
    * is not `None`, in order. */
  function RecoloredLayer(layer: seq<Member>, a: ColorArgs): (r: seq<Member>)
    ensures |r| <= |layer|
    decreases |layer|
  {
    if layer == [] then []
    else
      var m := SubstitutedMember(layer[|layer| - 1], a);
      RecoloredLayer(layer[..|layer| - 1], a) + (if m.value.NoneValue? then [] else [m])
  }

  /** The result of `setColor`: one new layer per layer. */
  function Recolored(symbol: Symbol, a: ColorArgs): (r: Symbol)
    ensures |r| == |symbol|
  {
    seq(|symbol|, i requires 0 <= i < |symbol| => RecoloredLayer(symbol[i], a))
  }

  /** Building a layer piece by piece gives the pieces' layers joined: the
    * kept members stay in their order. */
  lemma {:induction false} RecoloredLayerConcat(x: seq<Member>, y: seq<Member>, a: ColorArgs)
    ensures RecoloredLayer(x + y, a) == RecoloredLayer(x, a) + RecoloredLayer(y, a)
    decreases |y|
  {
    if y == [] {
      assert x + y == x;
    } else {
      var y0 := y[..|y| - 1];
      assert (x + y)[..|x + y| - 1] == x + y0;
      assert (x + y)[|x + y| - 1] == y[|y| - 1];
      RecoloredLayerConcat(x, y0, a);
    }
  }

  /** No kept member is `None`. */
  lemma {:induction false} RecoloredLayerNoNone(layer: seq<Member>, a: ColorArgs)
    ensures forall k :: 0 <= k < |RecoloredLayer(layer, a)| ==> !RecoloredLayer(layer, a)[k].value.NoneValue?
    decreases |layer|
  {
    if layer != [] {
      RecoloredLayerNoNone(layer[..|layer| - 1], a);
    }
  }

  /** A member is kept exactly when it is some member's substitution and its
    * value is not `None`. */
  lemma {:induction false} RecoloredLayerMembers(layer: seq<Member>, a: ColorArgs, m: Member)
    ensures m in RecoloredLayer(layer, a) <==>
              !m.value.NoneValue? && exists j :: 0 <= j < |layer| && m == SubstitutedMember(layer[j], a)
    decreases |layer|
  {
    if layer != [] {
      var init := layer[..|layer| - 1];
      RecoloredLayerMembers(init, a, m);
      RecoloredLayerNoNone(layer, a);
      assert forall j :: 0 <= j < |init| ==> init[j] == layer[j];
      if m in RecoloredLayer(layer, a) {
        if m in RecoloredLayer(init, a) {
          var j :| 0 <= j < |init| && m == SubstitutedMember(init[j], a);
          assert m == SubstitutedMember(layer[j], a);
        } else {
          assert m == SubstitutedMember(layer[|layer| - 1], a);
        }
      }
      if !m.value.NoneValue? && exists j :: 0 <= j < |layer| && m == SubstitutedMember(layer[j], a) {
        var j :| 0 <= j < |layer| && m == SubstitutedMember(layer[j], a);
        if j < |init| {
          assert m == SubstitutedMember(init[j], a);
        }
      }
    }
  }

  /** When no member becomes `None`, the layer is substituted member by
    * member. */
  lemma {:induction false} RecoloredLayerAllKept(layer: seq<Member>, a: ColorArgs)
    requires forall j :: 0 <= j < |layer| ==> !Substitute(layer[j].value, a).NoneValue?
    ensures |RecoloredLayer(layer, a)| == |layer|
    ensures forall j :: 0 <= j < |layer| ==> RecoloredLayer(layer, a)[j] == SubstitutedMember(layer[j], a)
    decreases |layer|
  {
    if layer != [] {
      var init := layer[..|layer| - 1];
      assert forall j :: 0 <= j < |init| ==> init[j] == layer[j];
      RecoloredLayerAllKept(init, a);
    }
  }

  /** The inner loop of `setColor`: each member's value goes through the
    * seven tests and the member is appended unless the value is `None`. */
  method RecolorLayer(layer: seq<Member>, a: ColorArgs) returns (newlayer: seq<Member>)
    ensures newlayer == RecoloredLayer(layer, a)
  {
    newlayer := [];
    for j := 0 to |layer|
      invariant newlayer == RecoloredLayer(layer[..j], a)
    {
      var member := layer[j];
      var value := member.value;
      if value == Str("COLOR") { value := a.color; }
      if value == Str("FILL-COLOR") { value := a.fillColor; }
      if value == Str("FILL-OPACITY") { value := a.fillOpacity; }
      if value == Str("STROKE-COLOR") { value := a.strokeColor; }
      if value == Str("STROKE-WIDTH") { value := a.strokeWidth; }
      if value == Str("SCALE-MIN") { value := a.scalemin; }
      if value == Str("SCALE-MAX") { value := a.scalemax; }
      assert layer[..j + 1][..j] == layer[..j];
      if !value.NoneValue? {
        newlayer := newlayer + [Member(member.symbolizer, member.attribute, value)];
      }
    }
    assert layer[..|layer|] == layer;
  }

  /** `setColor`: a new symbol built layer by layer. */
  method SetColor(symbol: Symbol, a: ColorArgs) returns (newsymbol: Symbol)
    ensures newsymbol == Recolored(symbol, a)
  {
    newsymbol := [];
    for i := 0 to |symbol|
      invariant newsymbol == Recolored(symbol[..i], a)
    {
      var newlayer := RecolorLayer(symbol[i], a);
      newsymbol := newsymbol + [newlayer];
    }
    assert symbol[..|symbol|] == symbol;
  }

  /** The three symbol sizes and their pixel dimensions. */
  const SmallDimension := 30
  const MediumDimension := 80
  const LargeDimension := 256

  /** The pixel dimension of the symbol image for a size class: large from
    * 3 up, medium at 2, small otherwise. */
  function NativeDimension(size: int): (r: int)
    ensures size >= 3 ==> r == LargeDimension
    ensures size == 2 ==> r == MediumDimension
    ensures size < 2 ==> r == SmallDimension
  {
    if size >= 3 then LargeDimension else if size == 2 then MediumDimension else SmallDimension
  }

  /** The `doclip` flag of `symbol2Image`: clip exactly when the requested
    * dimension is below the native one. */
  function DoClip(size: int, clipdimension: int): (r: bool)
    ensures r <==> clipdimension < NativeDimension(size)
  {
    if size >= 3 then clipdimension < LargeDimension
    else if size == 2 then clipdimension < MediumDimension
    else clipdimension < SmallDimension
  }

  /** A smaller request clips whenever a larger one does; no size clips at
    * 256 or more, and every size clips below 30. */
  lemma DoClipMonotone(size: int, d1: int, d2: int)
    requires d1 <= d2
    ensures DoClip(size, d2) ==> DoClip(size, d1)
    ensures d2 >= LargeDimension ==> !DoClip(size, d2)
    ensures d1 < SmallDimension ==> DoClip(size, d1)
  {
  }

  /** `addLayer` of this file, on a map's layer list. */
  method AddLayer(m: Map, tLayer: Layer, name: string, opacity: real) returns (r: Layer)
    modifies m`layers
    ensures r.name == name && r.opacity == opacity && r.popup == tLayer.popup
    ensures m.layers == Placed(NonPopups(old(m.layers)), r)
    ensures GetLayer(m.layers, name) == Some(r)
  {
    r := m.AddLayer(tLayer, name, opacity);
    PlacedFound(NonPopups(old(m.layers)), r);
  }
}
