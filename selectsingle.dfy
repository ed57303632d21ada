/** The stored selection of `selectSingle` (src/vois/vuetify/selectSingle.py):
  * a value validated against the allowed values on assignment, optionally
  * translated by a reverse mapping on the way in and a mapping on the way
  * out. `None` is `Option.None`; the `onchange` callback is a call count. */
module SelectSingle {
  import opened Wrappers

  /** A user-supplied translation between shown names and stored codes. */
  type Mapping = Option<string> -> Option<string>

  /** The value the setter tries to store: the reverse mapping of the given
    * one when there is a reverse mapping. */
  function Incoming(reverseMapping: Option<Mapping>, v: Option<string>): Option<string>
  {
    if reverseMapping.Some? then reverseMapping.value(v) else v
  }

  /** What the setter stores for a value it tries to store: an allowed value
    * itself, `''` for a missing or empty one, and `ValueError` otherwise. */
  function Accepted(values: seq<string>, newv: Option<string>): (r: Result<Option<string>>)
    ensures r.Ok? && r.value.Some? && r.value.value != "" ==> newv == r.value && r.value.value in values
    ensures r.Ok? <==> newv.None? || newv.value == "" || newv.value in values
    ensures r.Err? ==> r.error == ValueError
    ensures r.Ok? ==> r.value.Some? && (r.value == newv || r.value.value == "")
  {
    if newv.Some? && newv.value in values then Ok(newv)
    else if newv.None? || |newv.value| == 0 then Ok(Some(""))
    else Err(ValueError)
  }

  /** The `value` getter applied to a stored value. */
  function Shown(mapping: Option<Mapping>, stored: Option<string>): Option<string>
  {
    if mapping.Some? then mapping.value(stored) else stored
  }

  /** Assigning a value whose reverse mapping is allowed and reading it back
    * gives that value, when the mapping undoes the reverse mapping there (or
    * neither is given). */
  lemma SetGetRoundTrip(values: seq<string>, mapping: Option<Mapping>, reverseMapping: Option<Mapping>, v: Option<string>)
    requires Incoming(reverseMapping, v).Some? && Incoming(reverseMapping, v).value in values
    requires mapping.Some? <==> reverseMapping.Some?
    requires mapping.Some? ==> mapping.value(reverseMapping.value(v)) == v
    ensures Accepted(values, Incoming(reverseMapping, v)).Ok?
    ensures Shown(mapping, Accepted(values, Incoming(reverseMapping, v)).value) == v
  {
  }

  /** Whether the selection is coloured: only with `colorbackground` and a
    * non-empty allowed value stored. */
  predicate Highlighted(colorbackground: bool, values: seq<string>, stored: Option<string>) {
    colorbackground && stored.Some? && |stored.value| > 0 && stored.value in values
  }

  /** `__getColors`: the text and background colours. */
  function Colors(colorbackground: bool, values: seq<string>, stored: Option<string>, color: string, textcolor: string): (r: (string, string))
    ensures Highlighted(colorbackground, values, stored) ==> r == (textcolor, color)
    ensures !Highlighted(colorbackground, values, stored) ==> r == (color, "white")
  {
    if colorbackground && stored.Some? && |stored.value| > 0 && stored.value in values then (textcolor, color)
    else (color, "white")
  }

  class SelectSingle {
    const values: seq<string>
    const mapping: Option<Mapping>
    const reverseMapping: Option<Mapping>
    const colorbackground: bool
    /** The widget colour and the text colour used on a coloured background. */
    const color: string
    const textcolor: string
    const hasOnchange: bool
    /** `_value`. */
    var stored: Option<string>
    /** The select widget's `v_model`, `color` and `background_color`. */
    var selectModel: Option<string>
    var selectColor: string
    var selectBackground: string
    var changes: nat

    /** `selectSingle(label, values, selection, ...)`: the selection goes
      * through the setter before the select widget exists, so no callback
      * fires; the widget starts on the stored value with the background
      * `__getColors` computes, but its colour is the widget colour itself
      * until the first input recomputes it. */
    constructor(values: seq<string>, selection: Option<string>, mapping: Option<Mapping>,
                reverseMapping: Option<Mapping>, colorbackground: bool, color: string,
                textcolor: string, hasOnchange: bool)
      requires Accepted(values, Incoming(reverseMapping, selection)).Ok?
      ensures this.values == values && this.mapping == mapping && this.reverseMapping == reverseMapping
      ensures this.colorbackground == colorbackground && this.color == color && this.textcolor == textcolor
      ensures this.hasOnchange == hasOnchange
      ensures stored == Accepted(values, Incoming(reverseMapping, selection)).value
      ensures selectModel == stored && changes == 0
      ensures selectColor == color
      ensures selectBackground == Colors(colorbackground, values, stored, color, textcolor).1
    {
      this.values := values;
      this.mapping := mapping;
      this.reverseMapping := reverseMapping;
      this.colorbackground := colorbackground;
      this.color := color;
      this.textcolor := textcolor;
      this.hasOnchange := hasOnchange;
      var s := Accepted(values, Incoming(reverseMapping, selection)).value;
      stored := s;
      selectModel := s;
      changes := 0;
      var c := Colors(colorbackground, values, s, color, textcolor);
      selectColor := color;
      selectBackground := c.1;
    }

    /** The `value` getter. */
    function Value(): (r: Option<string>)
      reads this
      ensures mapping.None? ==> r == stored
      ensures mapping.Some? ==> r == mapping.value(stored)
    {
      Shown(mapping, stored)
    }

    /** The `value` setter. An allowed value is stored, shown in the widget
      * and reported; a missing or empty one stores `''` without touching
      * the widget or calling back; any other raises `ValueError` and
      * changes nothing. The colours are not recomputed. */
    method SetValue(v: Option<string>) returns (status: Status)
      modifies this`stored, this`selectModel, this`changes
      ensures Accepted(values, Incoming(reverseMapping, v)).Err? ==>
                status == Failure(ValueError) && unchanged(this)
      ensures Accepted(values, Incoming(reverseMapping, v)).Ok? ==>
                status == Success && stored == Accepted(values, Incoming(reverseMapping, v)).value
      ensures var newv := Incoming(reverseMapping, v);
        newv.Some? && newv.value in values ==>
          selectModel == newv && changes == old(changes) + (if hasOnchange then 1 else 0)
      ensures var newv := Incoming(reverseMapping, v);
        !(newv.Some? && newv.value in values) ==> selectModel == old(selectModel) && changes == old(changes)
    {
      var newv := if reverseMapping.Some? then reverseMapping.value(v) else v;
      if newv.Some? && newv.value in values {
        stored := newv;
        selectModel := stored;
        if hasOnchange {
          changes := changes + 1;
        }
      } else if newv.None? || |newv.value| == 0 {
        stored := Some("");
      } else {
        return Failure(ValueError);
      }
      status := Success;
    }

    /** `__internal_onchange`: a choice made in the widget is stored as is,
      * with no check, and the colours follow it. */
    method OnInput(data: Option<string>)
      modifies this
      ensures stored == data && selectModel == data
      ensures (selectColor, selectBackground) == Colors(colorbackground, values, data, color, textcolor)
      ensures changes == old(changes) + (if hasOnchange then 1 else 0)
    {
      selectModel := data;
      stored := selectModel;
      var c := Colors(colorbackground, values, stored, color, textcolor);
      selectColor := c.0;
      selectBackground := c.1;
      if hasOnchange {
        changes := changes + 1;
      }
    }
  }

  /** Construction, which raises `ValueError` for a selection the setter
    * refuses. */
  method Create(values: seq<string>, selection: Option<string>, mapping: Option<Mapping>,
                reverseMapping: Option<Mapping>, colorbackground: bool, color: string,
                textcolor: string, hasOnchange: bool) returns (r: Result<SelectSingle>)
    ensures Accepted(values, Incoming(reverseMapping, selection)).Err? <==> r == Err(ValueError)
    ensures r.Ok? ==> fresh(r.value) && r.value.values == values
    ensures r.Ok? ==> r.value.stored == Accepted(values, Incoming(reverseMapping, selection)).value
  {
    if Accepted(values, Incoming(reverseMapping, selection)).Err? {
      return Err(ValueError);
    }
    var s := new SelectSingle(values, selection, mapping, reverseMapping, colorbackground, color, textcolor, hasOnchange);
    r := Ok(s);
  }
}
