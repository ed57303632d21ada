/** The selection state of `Toggle` (src/vois/vuetify/Toggle.py): one
  * button per label, the index of the selected option, and the `dark` flag
  * forwarded to every button. Buttons are reduced to their `selected` and
  * `dark` flags; the `on_change` callback is a log of the indexes it
  * receives. */
module Toggle {
  import opened Wrappers

  class Toggle {
    /** The number of buttons (one per label). */
    const n: nat
    var index: int
    var selected: seq<bool>
    var dark: bool
    var buttonDark: seq<bool>
    var changes: seq<int>

    ghost predicate Valid()
      reads this
    {
      |selected| == n && |buttonDark| == n
    }

    /** Exactly the button at `index`, an existing one, is selected. */
    ghost predicate OneSelected()
      reads this
    {
      Valid() && 0 <= index < n && forall i :: 0 <= i < n ==> (selected[i] <==> i == index)
    }

    /** `Toggle(index, labels, dark=...)`: `__createButtons` makes button i
      * selected exactly when i is `index`, so an out-of-range index selects
      * none. */
    constructor(index: int, labels: nat, dark: bool)
      ensures Valid() && n == labels && this.index == index && this.dark == dark && changes == []
      ensures forall i :: 0 <= i < n ==> (selected[i] <==> i == index) && buttonDark[i] == dark
      ensures 0 <= index < labels ==> OneSelected()
    {
      n := labels;
      this.index := index;
      this.dark := dark;
      changes := [];
      var buttons: seq<bool> := [];
      var darks: seq<bool> := [];
      for i := 0 to labels
        invariant |buttons| == i && |darks| == i
        invariant forall j :: 0 <= j < i ==> (buttons[j] <==> j == index) && darks[j] == dark
      {
        buttons := buttons + [i == index];
        darks := darks + [dark];
      }
      selected := buttons;
      buttonDark := darks;
    }

    /** `__internal_onchange(k)`, the click on button k: the button at the
      * old index (a negative one counts from the end, Python style) is
      * deselected, then the one at k selected, and `on_change(k)` called,
      * even when k is already selected. An old index past either end raises
      * `IndexError` before any change. */
    method Click(k: nat) returns (status: Status)
      requires Valid() && k < n
      modifies this`index, this`selected, this`changes
      ensures Valid()
      ensures PyIndex(n, old(index)).None? ==>
                status == Failure(IndexError) && index == old(index) && selected == old(selected) && changes == old(changes)
      ensures PyIndex(n, old(index)).Some? ==>
                status == Success && index == k && changes == old(changes) + [k] &&
                selected == old(selected)[PyIndex(n, old(index)).value := false][k := true]
      ensures old(OneSelected()) ==> status == Success && OneSelected()
    {
      var w := PyIndex(n, index);
      if w.None? {
        return Failure(IndexError);
      }
      selected := selected[w.value := false];
      index := k;
      selected := selected[index := true];
      changes := changes + [index];
      status := Success;
    }


    /** The `value` setter: an index outside [0, n) changes nothing and
      * calls nothing; any other is selected as by a click. */
    method SetValue(v: int) returns (status: Status)
      requires Valid()
      modifies this`index, this`selected, this`changes
      ensures Valid()
      ensures !(0 <= v < n) ==>
                status == Success && index == old(index) && selected == old(selected) && changes == old(changes)
      ensures 0 <= v < n && PyIndex(n, old(index)).None? ==>
                status == Failure(IndexError) && index == old(index) && selected == old(selected) && changes == old(changes)
      ensures 0 <= v < n && PyIndex(n, old(index)).Some? ==>
                status == Success && index == v && changes == old(changes) + [v] &&
                selected == old(selected)[PyIndex(n, old(index)).value := false][v := true]
      ensures old(OneSelected()) ==> status == Success && OneSelected()
    {
      if 0 <= v < n {
        status := Click(v);
      } else {
        status := Success;
      }
    }

    /** The `dark` setter: the flag is stored and given to every button. */
    method SetDark(flag: bool)
      requires Valid()
      modifies this`dark, this`buttonDark
      ensures Valid() && dark == flag
      ensures forall i :: 0 <= i < n ==> buttonDark[i] == flag
    {
      dark := flag;
      for i := 0 to n
        invariant |buttonDark| == n && dark == flag
        invariant forall j :: 0 <= j < i ==> buttonDark[j] == flag
      {
        buttonDark := buttonDark[i := dark];
      }
    }
  }
}
