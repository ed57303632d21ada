/** The state of `DatePicker` (src/vois/vuetify/DatePicker.py): the chosen
  * date as a `YYYY-MM-DD` string (or `None`), mirrored in the text field and
  * in the picker, and the disabled flag, which decides whether the text
  * field opens the menu. The `on_change` callback is a call count; today's
  * date is a parameter. */
module DatePicker {
  import opened Wrappers

  /** The shape the `date` setter accepts: ten characters with `-` at
    * positions 4 and 7. The digits are not checked. */
  predicate IsDateShape(d: string) {
    |d| == 10 && d[4] == '-' && d[7] == '-'
  }

  /** The text field's `v_on` hook: cleared exactly when disabled. */
  function ActivatorHook(disabled: bool): (r: string)
    ensures r == "" <==> disabled
  {
    if disabled then "" else "menuData.on"
  }

  class DatePicker {
    const hasOnchange: bool
    /** `_date`, the text field's `v_model` and the picker's `v_model`. */
    var date: Option<string>
    var fieldDate: Option<string>
    var pickerDate: Option<string>
    var disabled: bool
    var hook: string
    var changes: nat

    /** The field, the text field and the picker agree, and the hook follows
      * the disabled flag. */
    ghost predicate Valid()
      reads this
    {
      fieldDate == date && pickerDate == date && hook == ActivatorHook(disabled)
    }

    /** `DatePicker(date, disabled=..., on_change=...)`: a missing date is
      * today's; the date is stored without any check. */
    constructor(date: Option<string>, today: string, disabled: bool, hasOnchange: bool)
      ensures this.date == (if date.None? then Some(today) else date)
      ensures this.disabled == disabled && this.hasOnchange == hasOnchange && changes == 0
      ensures Valid()
    {
      var d := if date.None? then Some(today) else date;
      this.date := d;
      this.disabled := disabled;
      this.hasOnchange := hasOnchange;
      changes := 0;
      hook := ActivatorHook(disabled);
      fieldDate := d;
      pickerDate := d;
    }

    /** `__internal_onchange`: the date picked in the picker is stored and
      * copied to the text field, and reported. */
    method OnInput(data: Option<string>)
      requires Valid()
      modifies this`date, this`fieldDate, this`pickerDate, this`changes
      ensures date == data && Valid()
      ensures changes == old(changes) + (if hasOnchange then 1 else 0)
    {
      pickerDate := data;
      date := data;
      fieldDate := data;
      if hasOnchange {
        changes := changes + 1;
      }
    }

    /** The `date` setter, given a string (`Some`) or any other value
      * (`None`): a date-shaped string is stored everywhere and reported;
      * anything else stores `None` everywhere with no callback. */
    method SetDate(d: Option<string>)
      requires Valid()
      modifies this`date, this`fieldDate, this`pickerDate, this`changes
      ensures Valid()
      ensures d.Some? && IsDateShape(d.value) ==>
                date == d && changes == old(changes) + (if hasOnchange then 1 else 0)
      ensures !(d.Some? && IsDateShape(d.value)) ==> date.None? && changes == old(changes)
    {
      if d.Some? && |d.value| == 10 && d.value[4] == '-' && d.value[7] == '-' {
        date := d;
        fieldDate := date;
        pickerDate := date;
        if hasOnchange {
          changes := changes + 1;
        }
      } else {
        date := None;
        fieldDate := date;
        pickerDate := date;
      }
    }

    /** The `disabled` setter (the flag already coerced with `bool`). */
    method SetDisabled(flag: bool)
      requires Valid()
      modifies this`disabled, this`hook
      ensures disabled == flag && Valid()
      ensures hook == "" <==> flag
    {
      disabled := flag;
      if disabled {
        hook := "";
      } else {
        hook := "menuData.on";
      }
    }
  }
}
