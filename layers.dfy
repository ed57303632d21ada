/** The bookkeeping of src/vois/vuetify/layers.py: an `interaproLayer`'s
  * optional settings, their normalisation and their (de)serialisation as a
  * "BDAP layer 1.0" dictionary; and the `layers` manager, which keeps the
  * non-base map layers in a list (top layer first) with two index maps
  * between layer ids and map positions. Tile services, widgets and the
  * `eval` of colour maps are not modelled. */
module Layers {
  import opened Wrappers
  import opened PyStrings

  // ---------------------------------------------------------------- layer settings

  /** A setting's value as it appears in a layer dictionary. */
  datatype Value = Str(s: string) | Num(x: real)

  /** The optional settings besides `path`. */
  datatype Key = File | Epsg | Nodata | Colorfile | Colortable | Colormap | Valuemap | Colorscheme | Colorcustom
               | Scalemin | Scalemax | Interpolate | Bands | Rmin | Rmax | Gmin | Gmax | Bmin | Bmax

  const FORMAT: string := "BDAP layer 1.0"

  /** The settings in the order the code visits them. */
  const FIELDS: seq<Key> := [File, Epsg, Nodata, Colorfile, Colortable, Colormap, Valuemap, Colorscheme, Colorcustom,
                             Scalemin, Scalemax, Interpolate, Bands, Rmin, Rmax, Gmin, Gmax, Bmin, Bmax]

  lemma AllFields(k: Key)
    ensures k in FIELDS
  {
    match k
    case File => assert FIELDS[0] == k;
    case Epsg => assert FIELDS[1] == k;
    case Nodata => assert FIELDS[2] == k;
    case Colorfile => assert FIELDS[3] == k;
    case Colortable => assert FIELDS[4] == k;
    case Colormap => assert FIELDS[5] == k;
    case Valuemap => assert FIELDS[6] == k;
    case Colorscheme => assert FIELDS[7] == k;
    case Colorcustom => assert FIELDS[8] == k;
    case Scalemin => assert FIELDS[9] == k;
    case Scalemax => assert FIELDS[10] == k;
    case Interpolate => assert FIELDS[11] == k;
    case Bands => assert FIELDS[12] == k;
    case Rmin => assert FIELDS[13] == k;
    case Rmax => assert FIELDS[14] == k;
    case Gmin => assert FIELDS[15] == k;
    case Gmax => assert FIELDS[16] == k;
    case Bmin => assert FIELDS[17] == k;
    case Bmax => assert FIELDS[18] == k;
  }

  /** The settings that are written and read only when non-empty. */
  predicate LenChecked(k: Key) {
    k.Colorfile? || k.Colortable? || k.Colormap? || k.Valuemap? || k.Colorscheme? || k.Colorcustom?
  }

  /** The length-checked settings are strings (`len` raises `TypeError` on a number). */
  predicate LenTyped(f: map<Key, Value>) {
    forall k :: k in f && LenChecked(k) ==> f[k].Str?
  }

  /** ... and so is `interpolate`, whose length the normalisation reads. */
  predicate StrTyped(f: map<Key, Value>) {
    LenTyped(f) && (Interpolate in f ==> f[Interpolate].Str?)
  }

  /** Whether a setting is carried: a length-checked one only when non-empty. */
  predicate Kept(k: Key, v: Value) {
    !LenChecked(k) || (v.Str? && |v.s| > 0)
  }

  /** The normalised settings and the flags derived from them. */
  datatype Norm = Norm(fields: map<Key, Value>, reverse: bool, mode: int, predefined: int, colors: seq<string>)

  /** Whether the colour scheme asks for the reversed palette. */
  predicate Reversed(f: map<Key, Value>)
    requires LenTyped(f)
  {
    Colorscheme in f && StartsWith(f[Colorscheme].s, "inv")
  }

  /** The colour scheme without its 'inv' prefix. */
  function StripInv(f: map<Key, Value>): map<Key, Value>
    requires LenTyped(f)
  {
    if Reversed(f) then f[Colorscheme := Str(f[Colorscheme].s[3..])] else f
  }

  /** `interpolate` set to 'NEAREST' when missing or empty. */
  function Defaulted(f: map<Key, Value>): map<Key, Value>
    requires Interpolate in f ==> f[Interpolate].Str?
  {
    if Interpolate !in f || |f[Interpolate].s| == 0 then f[Interpolate := Str("NEAREST")] else f
  }

  /** The tail of `__init__` and of `fromDict`, as one value. */
  function Normalise(f: map<Key, Value>): (r: Norm)
    requires StrTyped(f)
  {
    var reverse := Reversed(f);
    var f2 := Defaulted(StripInv(f));
    if Colormap in f then Norm(f2, reverse, 0, 0, [])
    else if Colorcustom in f then Norm(f2, reverse, 1, 1, Split(f[Colorcustom].s, ","))
    else Norm(f2, reverse, 1, 0, [])
  }

  /** The normalisation: an 'inv' prefix of the colour scheme becomes the
    * reverse flag and is dropped, `interpolate` defaults to 'NEAREST' when
    * missing or empty, no other setting changes, and the mode is 0
    * (discrete) exactly with a colour map, else 1, with the custom colours,
    * when given, split at ','. */
  lemma NormaliseSpec(f: map<Key, Value>)
    requires StrTyped(f)
    ensures var r := Normalise(f);
      && (r.reverse <==> Colorscheme in f && StartsWith(f[Colorscheme].s, "inv"))
      && (r.reverse ==> Colorscheme in r.fields && r.fields[Colorscheme] == Str(f[Colorscheme].s[3..]))
      && r.fields.Keys == f.Keys + {Interpolate}
      && r.fields[Interpolate] == (if Interpolate in f && |f[Interpolate].s| > 0 then f[Interpolate] else Str("NEAREST"))
      && (forall k :: k in f && k != Interpolate && !(k == Colorscheme && r.reverse) ==> r.fields[k] == f[k])
      && r.mode == (if Colormap in f then 0 else 1)
      && (r.predefined == 1 <==> Colormap !in f && Colorcustom in f)
      && (r.predefined == 0 || r.predefined == 1)
      && r.colors == (if r.predefined == 1 then Split(f[Colorcustom].s, ",") else [])
      && StrTyped(r.fields)
  {
  }

  /** A layer dictionary: its "format" and "path" entries, when present,
    * and one entry per setting, named as the setting. */
  datatype Dict = Dict(format: Option<Value>, path: Option<Value>, settings: map<Key, Value>)

  /** The carried settings. */
  function Keep(f: map<Key, Value>): map<Key, Value> {
    map k | k in f && Kept(k, f[k]) :: f[k]
  }

  /** The carried settings among those in `ks`. */
  function KeepAmong(f: map<Key, Value>, ks: seq<Key>): map<Key, Value> {
    map k | k in ks && k in f && Kept(k, f[k]) :: f[k]
  }

  /** `toDict()`: the format, then only `path` when it is set, else every
    * carried setting. */
  function Serialised(path: Option<string>, f: map<Key, Value>): (d: Dict)
    ensures d.format == Some(Str(FORMAT))
    ensures path.Some? ==> d.path == Some(Str(path.value)) && d.settings == map[]
    ensures path.None? ==> d.path.None? && d.settings == Keep(f)
  {
    if path.Some? then Dict(Some(Str(FORMAT)), Some(Str(path.value)), map[])
    else Dict(Some(Str(FORMAT)), None, Keep(f))
  }

  /** A non-empty `path` in a dictionary suppresses every other setting. */
  predicate PathGiven(d: Dict) {
    d.path.Some? && d.path.value.Str? && |d.path.value.s| > 0
  }

  /** What `fromDict` reads from a "BDAP layer 1.0" dictionary without
    * raising: `len` is applied to `path` and to the length-checked settings,
    * which are then strings, and the normalisation reads `interpolate`. */
  predicate Readable(d: Dict) {
    (d.path.Some? ==> d.path.value.Str?) && (!PathGiven(d) ==> StrTyped(d.settings))
  }

  /** The path and settings `fromDict` loads from a readable dictionary,
    * before the normalisation. */
  function Loaded(d: Dict): (Option<string>, map<Key, Value>)
    requires d.path.Some? ==> d.path.value.Str?
  {
    if PathGiven(d) then (Some(d.path.value.s), map[]) else (None, Keep(d.settings))
  }

  /** Saving a path-less layer and loading the dictionary back restores the
    * carried settings: the colour scheme, stored without its 'inv' prefix,
    * comes back unchanged unless it starts with 'inv' again, in which case it
    * loses that prefix too. */
  lemma RoundTrip(f: map<Key, Value>)
    requires StrTyped(f) && Interpolate in f && |f[Interpolate].s| > 0
    requires !(Colorscheme in f && StartsWith(f[Colorscheme].s, "inv"))
    ensures Readable(Serialised(None, f)) && !PathGiven(Serialised(None, f))
    ensures Loaded(Serialised(None, f)) == (None, Keep(f))
    ensures Normalise(Keep(f)).fields == Keep(f) && !Normalise(Keep(f)).reverse
  {
    var g := Keep(f);
    assert Keep(g) == g;
    assert Interpolate in g;
    var n := Normalise(g);
    assert n.fields == g;
  }

  /** A layer with a non-empty path saves only the path, and loading that
    * dictionary gives the path back with no other setting. */
  lemma PathRoundTrip(p: string, f: map<Key, Value>)
    requires |p| > 0
    ensures Readable(Serialised(Some(p), f)) && PathGiven(Serialised(Some(p), f))
    ensures Loaded(Serialised(Some(p), f)) == (Some(p), map[])
  {
  }

  /** The settings of one layer; `fields` holds the non-`None` settings. */
  class InteraproLayer {
    var name: string
    var visible: bool
    var opacity: real
    var path: Option<string>
    var fields: map<Key, Value>
    var colorschemeReverse: bool
    var mode: int
    var predefined: int
    var colors: seq<string>

    ghost predicate Valid()
      reads this
    {
      LenTyped(fields)
    }

    /** `interaproLayer(name, visible, opacity, path, **settings)`. */
    constructor(name: string, visible: bool, opacity: real, path: Option<string>, given: map<Key, Value>)
      requires StrTyped(given)
      ensures Valid()
      ensures this.name == name && this.visible == visible && this.opacity == opacity && this.path == path
      ensures Norm(fields, colorschemeReverse, mode, predefined, colors) == Normalise(given)
    {
      this.name := name;
      this.visible := visible;
      this.opacity := opacity;
      this.path := path;
      fields := given;
      new;
      var status := Normalize();
    }

    /** The shared normalisation, step by step. A numeric `interpolate`
      * raises `TypeError` after the colour scheme step. */
    method Normalize() returns (status: Status)
      requires Valid()
      modifies this`fields, this`colorschemeReverse, this`mode, this`predefined, this`colors
      ensures Valid()
      ensures status.Success? <==> StrTyped(old(fields))
      ensures status.Failure? ==> status.error == TypeError
      ensures status.Success? ==> Norm(fields, colorschemeReverse, mode, predefined, colors) == Normalise(old(fields))
    {
      ghost var f0 := fields;
      ReadColorscheme();
      if Interpolate in fields && fields[Interpolate].Num? {
        return Failure(TypeError);
      }
      if Interpolate !in fields || |fields[Interpolate].s| == 0 {
        fields := fields[Interpolate := Str("NEAREST")];
      }
      assert fields == Defaulted(StripInv(f0));
      ReadMode();
      status := Success;
    }

    /** The 'inv' prefix of the colour scheme, moved into the reverse flag. */
    method ReadColorscheme()
      requires Valid()
      modifies this`fields, this`colorschemeReverse
      ensures Valid()
      ensures fields == StripInv(old(fields)) && colorschemeReverse == Reversed(old(fields))
      ensures Interpolate in old(fields) ==> Interpolate in fields && fields[Interpolate] == old(fields)[Interpolate]
      ensures Interpolate !in old(fields) ==> Interpolate !in fields
    {
      colorschemeReverse := false;
      if Colorscheme in fields {
        if StartsWith(fields[Colorscheme].s, "inv") {
          colorschemeReverse := true;
          fields := fields[Colorscheme := Str(fields[Colorscheme].s[3..])];
        }
      }
    }

    /** The mode, read from the presence of a colour map, and the custom colours. */
    method ReadMode()
      requires Valid()
      modifies this`mode, this`predefined, this`colors
      ensures Colormap in fields ==> mode == 0 && predefined == 0 && colors == []
      ensures Colormap !in fields && Colorcustom in fields ==> mode == 1 && predefined == 1 && colors == Split(fields[Colorcustom].s, ",")
      ensures Colormap !in fields && Colorcustom !in fields ==> mode == 1 && predefined == 0 && colors == []
    {
      colors := [];
      predefined := 0;
      if Colormap in fields {
        mode := 0;
      } else {
        mode := 1;
        if Colorcustom in fields {
          predefined := 1;
          colors := Split(fields[Colorcustom].s, ",");
        }
      }
    }

    /** `toDict()`, by conditional inserts. */
    method ToDict() returns (d: Dict)
      requires Valid()
      ensures d == Serialised(path, fields)
    {
      if path.Some? {
        return Dict(Some(Str(FORMAT)), Some(Str(path.value)), map[]);
      }
      var status, kept := KeepSettings(fields, FIELDS);
      forall k ensures k in FIELDS {
        AllFields(k);
      }
      assert kept == Keep(fields);
      d := Dict(Some(Str(FORMAT)), None, kept);
    }

    /** `fromDict(d)`: every field is reset first; only a "BDAP layer 1.0"
      * dictionary is read, and then normalised. A missing format raises
      * `KeyError`, a number where a length is taken `TypeError`. */
    method FromDict(d: Dict) returns (status: Status)
      requires Valid()
      modifies this
      ensures Valid()
      ensures name == "" && visible && opacity == 1.0
      ensures status.Success? <==> d.format.Some? && (d.format.value == Str(FORMAT) ==> Readable(d))
      ensures status.Success? && d.format.value != Str(FORMAT) ==>
                path.None? && fields == map[] && colorschemeReverse == old(colorschemeReverse) &&
                mode == old(mode) && predefined == old(predefined) && colors == old(colors)
      ensures status.Success? && d.format.value == Str(FORMAT) ==>
                path == Loaded(d).0 && Norm(fields, colorschemeReverse, mode, predefined, colors) == Normalise(Loaded(d).1)
    {
      name := "";
      visible := true;
      opacity := 1.0;
      path := None;
      fields := map[];
      if d.format.None? {
        return Failure(KeyError);
      }
      if d.format.value != Str(FORMAT) {
        return Success;
      }
      if d.path.Some? && d.path.value.Num? {
        return Failure(TypeError);
      }
      if d.path.Some? && |d.path.value.s| > 0 {
        path := Some(d.path.value.s);
      } else {
        var kept;
        status, kept := KeepSettings(d.settings, FIELDS);
        forall k ensures k in FIELDS {
          AllFields(k);
        }
        if status.Failure? {
          return;
        }
        assert kept == Keep(d.settings);
        fields := kept;
      }
      status := Normalize();
    }
  }

  /** The conditional inserts of `toDict`, and the conditional loads of
    * `fromDict`, over the settings `ks`: a setting is carried when present,
    * a length-checked one only when non-empty; a numeric length-checked
    * setting raises `TypeError`. */
  method KeepSettings(f: map<Key, Value>, ks: seq<Key>) returns (status: Status, kept: map<Key, Value>)
    ensures LenTyped(kept)
    ensures status.Success? <==> forall k :: k in ks && k in f && LenChecked(k) ==> f[k].Str?
    ensures status.Failure? ==> status.error == TypeError
    ensures status.Success? ==> kept == KeepAmong(f, ks)
  {
    kept := map[];
    for i := 0 to |ks|
      invariant LenTyped(kept)
      invariant kept == KeepAmong(f, ks[..i])
      invariant forall k :: k in ks[..i] && k in f && LenChecked(k) ==> f[k].Str?
    {
      var k := ks[i];
      assert ks[..i + 1] == ks[..i] + [k];
      if k in f {
        if LenChecked(k) {
          if f[k].Num? {
            return Failure(TypeError), kept;
          }
          if |f[k].s| > 0 {
            kept := kept[k := f[k]];
          }
        } else {
          kept := kept[k := f[k]];
        }
      }
    }
    assert ks[..|ks|] == ks;
    status := Success;
  }
}
