/** The state of `MultiSwitch` (src/vois/vuetify/MultiSwitch.py): one
  * independent flag per option and one button per label showing it. The
  * `on_change` callback is a log of the flag lists it receives. */
module MultiSwitch {

  /** Only the flag at k set. */
  function Exclusive(n: nat, k: int): (r: seq<bool>)
    ensures |r| == n && forall i :: 0 <= i < n ==> (r[i] <==> i == k)
  {
    seq(n, i => i == k)
  }

  /** The number of flags set. */
  function CountSet(vs: seq<bool>): (r: nat)
    ensures r <= |vs|
    decreases |vs|
  {
    if vs == [] then 0 else (if vs[|vs| - 1] then 1 else 0) + CountSet(vs[..|vs| - 1])
  }

  /** A double click on an option leaves exactly that one set; on an index
    * outside the options, none. */
  lemma {:induction false} ExclusiveCount(n: nat, k: int)
    ensures CountSet(Exclusive(n, k)) == if 0 <= k < n then 1 else 0
    decreases n
  {
    if n > 0 {
      assert Exclusive(n, k)[..n - 1] == Exclusive(n - 1, k);
      ExclusiveCount(n - 1, k);
    }
  }

  class MultiSwitch {
    const manageDblClick: bool
    var values: seq<bool>
    var selected: seq<bool>
    var changes: seq<seq<bool>>

    /** Every button shows its option's flag. */
    ghost predicate Valid()
      reads this
    {
      selected == values
    }

    /** `MultiSwitch(values, labels, ...)` with one label per value (the
      * values arrive already as booleans); button i starts selected exactly
      * when values[i] holds. */
    constructor(values: seq<bool>, manageDblClick: bool)
      ensures Valid() && this.values == values && this.manageDblClick == manageDblClick && changes == []
    {
      this.values := values;
      this.manageDblClick := manageDblClick;
      changes := [];
      var buttons: seq<bool> := [];
      for i := 0 to |values|
        invariant buttons == values[..i]
      {
        buttons := buttons + [values[i]];
      }
      selected := buttons;
    }

    /** `__internal_onchange(k)`: flag k flips, its button follows, and the
      * whole list is passed on. */
    method Click(k: nat)
      requires Valid() && k < |values|
      modifies this`values, this`selected, this`changes
      ensures Valid()
      ensures values == old(values)[k := !old(values)[k]]
      ensures changes == old(changes) + [values]
    {
      values := values[k := !values[k]];
      selected := selected[k := values[k]];
      changes := changes + [values];
    }

    /** `__internal_dblclick(k)`: with `manage_dbl_click` option k becomes the
      * only one set (none when k is not an option); without it nothing
      * happens. */
    method DblClick(k: int)
      requires Valid()
      modifies this`values, this`selected, this`changes
      ensures Valid()
      ensures manageDblClick ==> values == Exclusive(|old(values)|, k) && changes == old(changes) + [values]
      ensures !manageDblClick ==> values == old(values) && changes == old(changes)
    {
      if manageDblClick {
        for i := 0 to |values|
          invariant |values| == |old(values)| && selected == values && changes == old(changes)
          invariant forall j :: 0 <= j < i ==> (values[j] <==> j == k)
        {
          if i == k {
            values := values[i := true];
            selected := selected[i := true];
          } else {
            values := values[i := false];
            selected := selected[i := false];
          }
        }
        changes := changes + [values];
      }
    }

    /** The `value` setter: a list of another length is ignored; one of the
      * same length replaces every flag and every button state. */
    method SetValue(vs: seq<bool>)
      requires Valid()
      modifies this`values, this`selected, this`changes
      ensures Valid()
      ensures |vs| == |old(values)| ==> values == vs && changes == old(changes) + [vs]
      ensures |vs| != |old(values)| ==> values == old(values) && changes == old(changes)
    {
      if |vs| == |values| {
        values := vs;
        for i := 0 to |values|
          invariant values == vs && |selected| == |values| && changes == old(changes)
          invariant forall j :: 0 <= j < i ==> selected[j] == values[j]
        {
          selected := selected[i := values[i]];
        }
        changes := changes + [values];
      }
    }
  }
}
