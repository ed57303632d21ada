/** The vector-data helpers of deploy/vois/geojsonUtils.py, on documents that
  * are already parsed: a feature is its property map plus its other
  * members, and the result of a join or a filter is the feature collection
  * before it is serialised again. */
module GeojsonUtils {
  import opened Wrappers

  /** A JSON value as `json.loads` gives it: integers and (finite) floats
    * are kept apart, as Python keeps `1` and `1.0` apart. */
  datatype Json =
    | JNull
    | JBool(b: bool)
    | JInt(i: int)
    | JFloat(x: real)
    | JStr(s: string)
    | JArr(elems: seq<Json>)
    | JObj(fields: map<string, Json>)

  /** `bool`, `int` and `float` values, which Python compares by value. */
  predicate Numeric(v: Json) {
    v.JBool? || v.JInt? || v.JFloat?
  }

  /** The number a numeric value stands for: `True` is 1, `False` 0. */
  function NumValue(v: Json): real
    requires Numeric(v)
  {
    match v
    case JBool(b) => if b then 1.0 else 0.0
    case JInt(i) => i as real
    case JFloat(x) => x
  }

  /** Python's `==` on JSON values: numbers by value across `bool`, `int`
    * and `float` (`True == 1 == 1.0`), lists element by element, dicts key
    * by key, anything else only with its own kind. */
  predicate PyEq(a: Json, b: Json)
    decreases a
  {
    if Numeric(a) || Numeric(b) then Numeric(a) && Numeric(b) && NumValue(a) == NumValue(b)
    else match a
      case JNull => b.JNull?
      case JStr(s) => b.JStr? && b.s == s
      case JArr(e) => b.JArr? && |e| == |b.elems| && forall i :: 0 <= i < |e| ==> PyEq(e[i], b.elems[i])
      case JObj(f) => b.JObj? && f.Keys == b.fields.Keys && forall k :: k in f ==> PyEq(f[k], b.fields[k])
  }

  /** Python's `==` on these values is an equivalence that holds between
    * equal values, and tells `True` and `1` together. */
  lemma {:induction false} PyEqReflexive(a: Json)
    ensures PyEq(a, a)
    decreases a
  {
    match a
    case JArr(e) =>
      forall i | 0 <= i < |e| ensures PyEq(e[i], e[i]) {
        PyEqReflexive(e[i]);
      }
    case JObj(f) =>
      forall k | k in f ensures PyEq(f[k], f[k]) {
        PyEqReflexive(f[k]);
      }
    case _ =>
  }

  lemma {:induction false} PyEqSymmetric(a: Json, b: Json)
    requires PyEq(a, b)
    ensures PyEq(b, a)
    decreases a
  {
    if !Numeric(a) && !Numeric(b) {
      match a
      case JArr(e) =>
        forall i | 0 <= i < |e| ensures PyEq(b.elems[i], e[i]) {
          PyEqSymmetric(e[i], b.elems[i]);
        }
      case JObj(f) =>
        forall k | k in b.fields ensures PyEq(b.fields[k], f[k]) {
          PyEqSymmetric(f[k], b.fields[k]);
        }
      case _ =>
    }
  }

  lemma TrueEqualsOne()
    ensures PyEq(JBool(true), JInt(1)) && PyEq(JInt(1), JFloat(1.0)) && !PyEq(JInt(1), JStr("1"))
  {
  }

  /** The "properties" member of a feature: absent, `null`, or an object. */
  datatype Props = Absent | Null | Obj(fields: map<string, Json>)

  /** A feature object: its "properties" member and its other members
    * (type, geometry, id, ...). */
  datatype Feature = Feature(properties: Props, members: map<string, Json>)

  /** A parsed document: an object, given by its members other than
    * "features" and its features when that member is a list; or a JSON
    * value that is not an object. */
  datatype Parsed = Doc(members: map<string, Json>, features: Option<seq<Feature>>) | NotAnObject

  /** A feature collection: its members other than "features", and the
    * features. */
  datatype Collection = Collection(members: map<string, Json>, features: seq<Feature>)

  const FeatureCollection: Json := JStr("FeatureCollection")

  /** `geojsonJson`: a document that is not an object has no `get`
    * (AttributeError); an object is accepted iff its type is
    * 'FeatureCollection' and its features member is a list, and otherwise
    * Exception is raised. */
  function GeojsonJson(j: Parsed): (r: Result<Collection>)
    ensures j.NotAnObject? ==> r == Err(AttributeError)
    ensures r.Ok? <==> j.Doc? && "type" in j.members && j.members["type"] == FeatureCollection && j.features.Some?
    ensures r.Ok? ==> r.value.members == j.members && r.value.features == j.features.value
    ensures r.Err? && j.Doc? ==> r.error == Exception
  {
    if j.NotAnObject? then Err(AttributeError)
    else if "type" !in j.members || j.members["type"] != FeatureCollection then Err(Exception)
    else if j.features.None? then Err(Exception)
    else Ok(Collection(j.members, j.features.value))
  }

  /** `geojsonCount`. */
  function GeojsonCount(j: Parsed): (r: Result<nat>)
    ensures r.Ok? <==> GeojsonJson(j).Ok?
    ensures r.Err? ==> r == GeojsonJson(j).PropagateFailure()
    ensures r.Ok? ==> r.value == |GeojsonJson(j).value.features|
  {
    var c :- GeojsonJson(j);
    Ok(|c.features|)
  }

  /** Whether every feature's properties are an object. */
  predicate AllHaveProperties(fs: seq<Feature>) {
    forall i :: 0 <= i < |fs| ==> fs[i].properties.Obj?
  }

  /** The position of the first feature whose properties are absent or
    * `null`: where a loop over `f['properties']` raises. */
  function FirstWithout(fs: seq<Feature>): (r: Option<nat>)
    ensures r.None? <==> AllHaveProperties(fs)
    ensures r.Some? ==> r.value < |fs| && !fs[r.value].properties.Obj? &&
                        forall i :: 0 <= i < r.value ==> fs[i].properties.Obj?
    decreases |fs|
  {
    if fs == [] then None
    else if !fs[0].properties.Obj? then Some(0)
    else
      var t := FirstWithout(fs[1..]);
      assert forall i :: 1 <= i < |fs| ==> fs[i] == fs[1..][i - 1];
      if t.None? then None else Some(t.value + 1)
  }

  /** `geojsonAll`: one value per feature, in order, None (JSON null) where
    * the attribute is absent. At the first feature without a properties
    * object, `f['properties']` raises KeyError, and `attributeName in None`
    * raises TypeError. */
  function GeojsonAll(j: Parsed, attributeName: string): (r: Result<seq<Json>>)
    ensures GeojsonJson(j).Err? ==> r == GeojsonJson(j).PropagateFailure()
    ensures r.Ok? <==> GeojsonJson(j).Ok? && AllHaveProperties(GeojsonJson(j).value.features)
    ensures GeojsonJson(j).Ok? && FirstWithout(GeojsonJson(j).value.features).Some? ==>
              var fs := GeojsonJson(j).value.features;
              r == Err(if fs[FirstWithout(fs).value].properties.Absent? then KeyError else TypeError)
    ensures r.Ok? ==> var fs := GeojsonJson(j).value.features;
                      |r.value| == |fs| &&
                      forall i :: 0 <= i < |r.value| ==>
                        var p := fs[i].properties.fields;
                        r.value[i] == if attributeName in p then p[attributeName] else JNull
  {
    var c :- GeojsonJson(j);
    var bad := FirstWithout(c.features);
    if bad.Some? then Err(if c.features[bad.value].properties.Absent? then KeyError else TypeError)
    else Ok(seq(|c.features|, i requires 0 <= i < |c.features| && AllHaveProperties(c.features) =>
                var p := c.features[i].properties.fields;
                if attributeName in p then p[attributeName] else JNull))
  }

  /** geojsonAll gives exactly as many values as geojsonCount counts. */
  lemma AllHasCountValues(j: Parsed, attributeName: string)
    requires GeojsonAll(j, attributeName).Ok?
    ensures GeojsonCount(j).Ok? && |GeojsonAll(j, attributeName).value| == GeojsonCount(j).value
  {
  }

  /** `geojsonAttributes`: the union, over all features, of their property
    * names (as a set: the Python list comes from a set, in no fixed order).
    * At the first feature without a properties object, `f['properties']`
    * raises KeyError, and `None.keys()` raises AttributeError. */
  method GeojsonAttributes(j: Parsed) returns (r: Result<set<string>>)
    ensures GeojsonJson(j).Err? ==> r == GeojsonJson(j).PropagateFailure()
    ensures r.Ok? <==> GeojsonJson(j).Ok? && AllHaveProperties(GeojsonJson(j).value.features)
    ensures GeojsonJson(j).Ok? && FirstWithout(GeojsonJson(j).value.features).Some? ==>
              var fs := GeojsonJson(j).value.features;
              r == Err(if fs[FirstWithout(fs).value].properties.Absent? then KeyError else AttributeError)
    ensures r.Ok? ==> var fs := GeojsonJson(j).value.features;
                      forall k :: k in r.value <==> exists i :: 0 <= i < |fs| && k in fs[i].properties.fields
  {
    var c := GeojsonJson(j);
    if c.Err? {
      return Err(c.error);
    }
    var fs := c.value.features;
    var attributes: set<string> := {};
    var i := 0;
    while i < |fs|
      invariant 0 <= i <= |fs|
      invariant forall m :: 0 <= m < i ==> fs[m].properties.Obj?
      invariant forall k :: k in attributes <==> exists m :: 0 <= m < i && k in fs[m].properties.fields
    {
      if fs[i].properties.Absent? {
        return Err(KeyError);
      } else if fs[i].properties.Null? {
        return Err(AttributeError);
      }
      attributes := attributes + fs[i].properties.fields.Keys;
      i := i + 1;
    }
    r := Ok(attributes);
  }

  /** The members of a join or filter result: type 'FeatureCollection',
    * plus the input's 'crs' when it has one. */
  function OutputMembers(members: map<string, Json>): (r: map<string, Json>)
    ensures "type" in r && r["type"] == FeatureCollection
    ensures "crs" in r <==> "crs" in members
    ensures "crs" in r ==> r["crs"] == members["crs"]
    ensures forall k :: k in r ==> k == "type" || k == "crs"
  {
    if "crs" in members then map["type" := FeatureCollection, "crs" := members["crs"]]
    else map["type" := FeatureCollection]
  }

  // ---------------------------------------------------------------- join

  /** The value of the key field, when the feature's properties are an
    * object holding it. */
  function KeyOf(f: Feature, keyname: string): (r: Option<Json>)
    ensures r.Some? <==> f.properties.Obj? && keyname in f.properties.fields
    ensures r.Some? ==> r.value == f.properties.fields[keyname]
  {
    if f.properties.Obj? && keyname in f.properties.fields then Some(f.properties.fields[keyname]) else None
  }

  /** Lists and dicts cannot be looked up in a Python dict (TypeError). */
  predicate Hashable(v: Json) {
    !v.JArr? && !v.JObj?
  }

  /** A Python dict, as its entries in insertion order. A lookup finds the
    * entry whose key is `==` to the one asked for (a real dict holds at
    * most one such entry). */
  type Dict = seq<(Json, Json)>

  /** The position of the first entry whose key is `==` to `key`. */
  function FirstKey(d: Dict, key: Json): (r: Option<nat>)
    ensures r.None? <==> forall i :: 0 <= i < |d| ==> !PyEq(d[i].0, key)
    ensures r.Some? ==> r.value < |d| && PyEq(d[r.value].0, key) &&
                        forall i :: 0 <= i < r.value ==> !PyEq(d[i].0, key)
    decreases |d|
  {
    if d == [] then None
    else if PyEq(d[0].0, key) then Some(0)
    else
      var t := FirstKey(d[1..], key);
      assert forall i :: 1 <= i < |d| ==> d[i] == d[1..][i - 1];
      if t.None? then None else Some(t.value + 1)
  }

  /** A Python dict lookup treats `True`, `1` and `1.0` as one key. */
  lemma BoolKeyFindsIntEntry(v: Json)
    ensures var d := [(JInt(1), v)];
            FirstKey(d, JBool(true)) == Some(0) && FirstKey(d, JFloat(1.0)) == Some(0) &&
            FirstKey(d, JStr("1")).None?
  {
    var d := [(JInt(1), v)];
    assert PyEq(d[0].0, JBool(true));
    assert !PyEq(d[0].0, JStr("1"));
  }

  /** Whether the loop can look at the feature without raising: `keyname in
    * None` raises TypeError for a null "properties", and so does looking up
    * a list or dict key value. */
  predicate JoinSafe(f: Feature, keyname: string) {
    !f.properties.Null? && (KeyOf(f, keyname).Some? ==> Hashable(KeyOf(f, keyname).value))
  }

  predicate AllJoinSafe(fs: seq<Feature>, keyname: string) {
    forall i :: 0 <= i < |fs| ==> JoinSafe(fs[i], keyname)
  }

  /** Whether the feature's key value is a key of the dictionary. */
  predicate Matches(f: Feature, keyname: string, dict: Dict) {
    KeyOf(f, keyname).Some? && FirstKey(dict, KeyOf(f, keyname).value).Some?
  }

  /** A feature after the join step: a matching one gains the added field
    * with the dictionary's value, and nothing else about it changes. */
  function Joined(f: Feature, keyname: string, added: string, dict: Dict): (g: Feature)
    ensures g.members == f.members && g.properties.Obj? == f.properties.Obj?
    ensures !Matches(f, keyname, dict) ==> g == f
    ensures Matches(f, keyname, dict) ==>
              var i := FirstKey(dict, KeyOf(f, keyname).value).value;
              added in g.properties.fields && g.properties.fields[added] == dict[i].1 &&
              g.properties.fields.Keys == f.properties.fields.Keys + {added} &&
              forall k :: k in f.properties.fields && k != added ==> g.properties.fields[k] == f.properties.fields[k]
  {
    if Matches(f, keyname, dict) then
      var i := FirstKey(dict, KeyOf(f, keyname).value).value;
      Feature(Obj(f.properties.fields[added := dict[i].1]), f.members)
    else f
  }

  function JoinAll(fs: seq<Feature>, keyname: string, added: string, dict: Dict): (r: seq<Feature>)
    ensures |r| == |fs| && forall i :: 0 <= i < |fs| ==> r[i] == Joined(fs[i], keyname, added, dict)
  {
    seq(|fs|, i requires 0 <= i < |fs| => Joined(fs[i], keyname, added, dict))
  }

  /** The features whose key value is in the dictionary, order kept. */
  function MatchingFeatures(fs: seq<Feature>, keyname: string, dict: Dict): (r: seq<Feature>)
    ensures |r| <= |fs|
    ensures forall g :: g in r ==> g in fs && Matches(g, keyname, dict)
    ensures forall f :: f in fs && Matches(f, keyname, dict) ==> f in r
  {
    if fs == [] then []
    else if Matches(fs[0], keyname, dict) then [fs[0]] + MatchingFeatures(fs[1..], keyname, dict)
    else MatchingFeatures(fs[1..], keyname, dict)
  }

  lemma {:induction false} MatchingSnoc(fs: seq<Feature>, f: Feature, keyname: string, dict: Dict)
    ensures MatchingFeatures(fs + [f], keyname, dict) ==
            MatchingFeatures(fs, keyname, dict) + (if Matches(f, keyname, dict) then [f] else [])
  {
    if fs != [] {
      assert (fs + [f])[1..] == fs[1..] + [f];
      MatchingSnoc(fs[1..], f, keyname, dict);
    } else {
      assert [f][1..] == [];
    }
  }

  /** The features a join emits: all of them, joined, or with `innerMode`
    * only the matching ones, joined. */
  function JoinOutput(fs: seq<Feature>, keyname: string, added: string, dict: Dict, innerMode: bool): seq<Feature> {
    if innerMode then JoinAll(MatchingFeatures(fs, keyname, dict), keyname, added, dict)
    else JoinAll(fs, keyname, added, dict)
  }

  /** One more feature: the join emits its joined form after the others,
    * or with `innerMode` only when it matches. */
  lemma JoinOutputSnoc(fs: seq<Feature>, f: Feature, keyname: string, added: string, dict: Dict, innerMode: bool)
    ensures JoinOutput(fs + [f], keyname, added, dict, innerMode) ==
            JoinOutput(fs, keyname, added, dict, innerMode) +
            (if !innerMode || Matches(f, keyname, dict) then [Joined(f, keyname, added, dict)] else [])
  {
    MatchingSnoc(fs, f, keyname, dict);
    var ms := MatchingFeatures(fs, keyname, dict);
    JoinAllSnoc(fs, f, keyname, added, dict);
    JoinAllSnoc(ms, f, keyname, added, dict);
  }

  lemma JoinAllSnoc(fs: seq<Feature>, f: Feature, keyname: string, added: string, dict: Dict)
    ensures JoinAll(fs + [f], keyname, added, dict) == JoinAll(fs, keyname, added, dict) + [Joined(f, keyname, added, dict)]
  {
    var a, b := JoinAll(fs + [f], keyname, added, dict), JoinAll(fs, keyname, added, dict) + [Joined(f, keyname, added, dict)];
    forall i | 0 <= i < |a| ensures a[i] == b[i] {
      if i < |fs| {
        assert (fs + [f])[i] == fs[i];
      }
    }
  }

  lemma AllJoinSafeSnoc(fs: seq<Feature>, f: Feature, keyname: string)
    requires AllJoinSafe(fs, keyname) && JoinSafe(f, keyname)
    ensures AllJoinSafe(fs + [f], keyname)
  {
    forall i | 0 <= i < |fs + [f]| ensures JoinSafe((fs + [f])[i], keyname) {
      if i < |fs| {
        assert (fs + [f])[i] == fs[i];
      }
    }
  }

  /** One more iteration of the join loop over a feature it can look at. */
  lemma JoinStep(fs: seq<Feature>, i: nat, keyname: string, added: string, dict: Dict, innerMode: bool)
    requires i < |fs| && AllJoinSafe(fs[..i], keyname) && JoinSafe(fs[i], keyname)
    ensures AllJoinSafe(fs[..i + 1], keyname)
    ensures JoinOutput(fs[..i + 1], keyname, added, dict, innerMode) ==
            JoinOutput(fs[..i], keyname, added, dict, innerMode) +
            (if !innerMode || Matches(fs[i], keyname, dict) then [Joined(fs[i], keyname, added, dict)] else [])
  {
    assert fs[..i + 1] == fs[..i] + [fs[i]];
    JoinOutputSnoc(fs[..i], fs[i], keyname, added, dict, innerMode);
    AllJoinSafeSnoc(fs[..i], fs[i], keyname);
  }

  /** `geojsonJoin`. The loop raises TypeError at the first feature with
    * null properties or with a list or dict key value; otherwise every
    * feature is emitted (joined where it matches), or with `innerMode` only
    * the joined ones. */
  method GeojsonJoin(j: Parsed, keyname: string, addedfieldname: string, keytovaluedict: Dict, innerMode: bool)
    returns (r: Result<Collection>)
    ensures GeojsonJson(j).Err? ==> r == GeojsonJson(j).PropagateFailure()
    ensures GeojsonJson(j).Ok? && !AllJoinSafe(j.features.value, keyname) ==> r == Err(TypeError)
    ensures r.Ok? <==> GeojsonJson(j).Ok? && AllJoinSafe(j.features.value, keyname)
    ensures r.Ok? ==> r.value.members == OutputMembers(j.members) &&
                      r.value.features == JoinOutput(j.features.value, keyname, addedfieldname, keytovaluedict, innerMode)
  {
    var c := GeojsonJson(j);
    if c.Err? {
      return Err(c.error);
    }
    var out := JoinFeatures(c.value.features, keyname, addedfieldname, keytovaluedict, innerMode);
    if out.Err? {
      return Err(out.error);
    }
    r := Ok(Collection(OutputMembers(j.members), out.value));
  }

  /** The feature loop of `geojsonJoin`: TypeError at the first feature it
    * cannot look at, otherwise the emitted features. */
  method JoinFeatures(fs: seq<Feature>, keyname: string, addedfieldname: string, keytovaluedict: Dict, innerMode: bool)
    returns (r: Result<seq<Feature>>)
    ensures r.Ok? <==> AllJoinSafe(fs, keyname)
    ensures r.Err? ==> r.error == TypeError
    ensures r.Ok? ==> r.value == JoinOutput(fs, keyname, addedfieldname, keytovaluedict, innerMode)
  {
    var out: seq<Feature> := [];
    var i := 0;
    while i < |fs|
      invariant 0 <= i <= |fs|
      invariant AllJoinSafe(fs[..i], keyname)
      invariant out == JoinOutput(fs[..i], keyname, addedfieldname, keytovaluedict, innerMode)
    {
      var f := fs[i];
      if f.properties.Null? {
        assert !JoinSafe(fs[i], keyname);
        return Err(TypeError);
      }
      var key := KeyOf(f, keyname);
      if key.Some? && !Hashable(key.value) {
        assert !JoinSafe(fs[i], keyname);
        return Err(TypeError);
      }
      var matched := Matches(f, keyname, keytovaluedict);
      var g := Joined(f, keyname, addedfieldname, keytovaluedict);
      JoinStep(fs, i, keyname, addedfieldname, keytovaluedict, innerMode);
      if matched && innerMode {
        out := out + [g];
      }
      if !innerMode {
        out := out + [g];
      }
      i := i + 1;
    }
    assert fs[..i] == fs;
    r := Ok(out);
  }

  /** Without `innerMode` the join keeps every feature in its place. */
  lemma JoinOuterKeepsOrder(fs: seq<Feature>, keyname: string, added: string, dict: Dict)
    ensures var out := JoinOutput(fs, keyname, added, dict, false);
            |out| == |fs| && forall i :: 0 <= i < |fs| ==> out[i].members == fs[i].members
  {
  }

  // ---------------------------------------------------------------- filter

  /** Python's `v in es` on a list: some element is `==` to `v`. */
  predicate InList(v: Json, es: seq<Json>) {
    exists e :: e in es && PyEq(e, v)
  }

  /** Whether the feature's field value is `==` to `fieldvalue`, or to one
    * of its elements when `fieldvalue` is a list. */
  predicate Selected(f: Feature, fieldname: string, fieldvalue: Json) {
    f.properties.Obj? && fieldname in f.properties.fields &&
    var v := f.properties.fields[fieldname];
    (fieldvalue.JArr? && InList(v, fieldvalue.elems)) || PyEq(v, fieldvalue)
  }

  /** The selected features, order kept. */
  function SelectedFeatures(fs: seq<Feature>, fieldname: string, fieldvalue: Json): (r: seq<Feature>)
    ensures |r| <= |fs|
    ensures forall g :: g in r ==> g in fs && Selected(g, fieldname, fieldvalue)
    ensures forall f :: f in fs && Selected(f, fieldname, fieldvalue) ==> f in r
  {
    if fs == [] then []
    else if Selected(fs[0], fieldname, fieldvalue) then [fs[0]] + SelectedFeatures(fs[1..], fieldname, fieldvalue)
    else SelectedFeatures(fs[1..], fieldname, fieldvalue)
  }

  lemma {:induction false} SelectedSnoc(fs: seq<Feature>, f: Feature, fieldname: string, fieldvalue: Json)
    ensures SelectedFeatures(fs + [f], fieldname, fieldvalue) ==
            SelectedFeatures(fs, fieldname, fieldvalue) + (if Selected(f, fieldname, fieldvalue) then [f] else [])
  {
    if fs != [] {
      assert (fs + [f])[1..] == fs[1..] + [f];
      SelectedSnoc(fs[1..], f, fieldname, fieldvalue);
    } else {
      assert [f][1..] == [];
    }
  }

  /** A field holding `true` passes a filter on the value 1. */
  lemma FilterTrueIsOne(fieldname: string)
    ensures Selected(Feature(Obj(map[fieldname := JBool(true)]), map[]), fieldname, JInt(1))
    ensures !Selected(Feature(Obj(map[fieldname := JStr("1")]), map[]), fieldname, JInt(1))
  {
  }

  /** No feature has a null "properties" member. */
  predicate NoNullProperties(fs: seq<Feature>) {
    forall i :: 0 <= i < |fs| ==> !fs[i].properties.Null?
  }

  /** `geojsonFilter`: `fieldname in None` raises TypeError at the first
    * feature with null properties; otherwise the selected features, in
    * their input order, in a new collection. */
  method GeojsonFilter(j: Parsed, fieldname: string, fieldvalue: Json) returns (r: Result<Collection>)
    ensures GeojsonJson(j).Err? ==> r == GeojsonJson(j).PropagateFailure()
    ensures GeojsonJson(j).Ok? && !NoNullProperties(j.features.value) ==> r == Err(TypeError)
    ensures r.Ok? <==> GeojsonJson(j).Ok? && NoNullProperties(j.features.value)
    ensures r.Ok? ==> r.value.members == OutputMembers(j.members) &&
                      r.value.features == SelectedFeatures(j.features.value, fieldname, fieldvalue)
  {
    var c := GeojsonJson(j);
    if c.Err? {
      return Err(c.error);
    }
    var out := FilterFeatures(c.value.features, fieldname, fieldvalue);
    if out.Err? {
      return Err(out.error);
    }
    r := Ok(Collection(OutputMembers(j.members), out.value));
  }

  /** The feature loop of `geojsonFilter`: TypeError at the first feature
    * with null properties, otherwise the selected features. */
  method FilterFeatures(fs: seq<Feature>, fieldname: string, fieldvalue: Json) returns (r: Result<seq<Feature>>)
    ensures r.Ok? <==> NoNullProperties(fs)
    ensures r.Err? ==> r.error == TypeError
    ensures r.Ok? ==> r.value == SelectedFeatures(fs, fieldname, fieldvalue)
  {
    var out: seq<Feature> := [];
    for i := 0 to |fs|
      invariant NoNullProperties(fs[..i])
      invariant out == SelectedFeatures(fs[..i], fieldname, fieldvalue)
    {
      var f := fs[i];
      if f.properties.Null? {
        return Err(TypeError);
      }
      SelectedSnoc(fs[..i], f, fieldname, fieldvalue);
      assert fs[..i + 1] == fs[..i] + [f];
      if f.properties.Obj? && fieldname in f.properties.fields {
        var fvalue := f.properties.fields[fieldname];
        if (fieldvalue.JArr? && InList(fvalue, fieldvalue.elems)) || PyEq(fvalue, fieldvalue) {
          out := out + [f];
        }
      }
    }
    assert fs[..|fs|] == fs;
    r := Ok(out);
  }

  /** Filtering twice with the same test changes nothing the second time. */
  lemma {:induction false} FilterIdempotent(fs: seq<Feature>, fieldname: string, fieldvalue: Json)
    ensures SelectedFeatures(SelectedFeatures(fs, fieldname, fieldvalue), fieldname, fieldvalue) ==
            SelectedFeatures(fs, fieldname, fieldvalue)
  {
    if fs != [] {
      FilterIdempotent(fs[1..], fieldname, fieldvalue);
      if Selected(fs[0], fieldname, fieldvalue) {
        var rest := SelectedFeatures(fs[1..], fieldname, fieldvalue);
        assert ([fs[0]] + rest)[1..] == rest;
      }
    }
  }
}
