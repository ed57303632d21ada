/** The integer state behind `rangeSliderFloat`
  * (src/vois/vuetify/rangeSliderFloat.py): the slider holds a pair of
  * integers in [0, maxint], changed by four step buttons, two reset buttons
  * and the `value` setter; the step buttons are disabled when their step
  * would break the order. Floats are modelled as exact reals and the
  * `onchange` callback as a log of the integer pairs it is computed from. */
module RangeSlider {
  import opened Wrappers

  /** 10 to the power k. */
  function Pow10(k: nat): (r: nat)
    ensures r >= 1
  {
    if k == 0 then 1 else 10 * Pow10(k - 1)
  }

  /** The `maxint` chosen when none is given: one step per unit of the last
    * shown decimal, with at least one and at most five decimals. */
  function DefaultMaxint(decimals: int): (r: nat)
    ensures r == Pow10(if decimals <= 1 then 1 else if decimals >= 5 then 5 else decimals)
    ensures 10 <= r <= 100000
  {
    if decimals <= 1 then 10
    else if decimals == 2 then 100
    else if decimals == 3 then 1000
    else if decimals == 4 then 10000
    else 100000
  }

  /** Python `max(lo, min(hi, x))`, nested as the source nests it. */
  function Clamp(minvalue: real, maxvalue: real, x: real): real
  {
    if minvalue >= (if maxvalue <= x then maxvalue else x) then minvalue
    else if maxvalue <= x then maxvalue else x
  }

  /** Python `int(x)`: truncation toward zero. */
  function Trunc(x: real): (r: int)
  {
    if x >= 0.0 then x.Floor else -((-x).Floor)
  }

  /** `float2integer`: the clamped value scaled to [0, maxint] and truncated.
    * With minvalue == maxvalue Python divides by zero. */
  function Float2Integer(maxint: int, minvalue: real, maxvalue: real, x: real): (r: int)
    requires minvalue != maxvalue
  {
    Trunc(Scaled(maxint as real, Clamp(minvalue, maxvalue, x) - minvalue, maxvalue - minvalue))
  }

  /** The offset e within a range of width d, as a share of m. */
  function Scaled(m: real, e: real, d: real): real
    requires d != 0.0
  {
    m * e / d
  }

  lemma TruncMonotone(x: real, y: real)
    requires 0.0 <= x <= y
    ensures 0 <= Trunc(x) <= Trunc(y)
  {
  }

  lemma TruncBound(x: real, n: int)
    requires 0.0 <= x <= n as real
    ensures 0 <= Trunc(x) <= n
  {
  }

  lemma MulMonotone(m: real, a: real, b: real)
    requires m >= 0.0 && a <= b
    ensures m * a <= m * b
  {
  }

  lemma DivMonotone(p: real, q: real, d: real)
    requires d > 0.0 && p <= q
    ensures p / d <= q / d
  {
  }

  lemma MulDivCancel(m: real, d: real)
    requires d != 0.0
    ensures m * d / d == m
  {
  }

  /** The clamped value lies in [minvalue, maxvalue] and is the value itself
    * when that already lies there. */
  lemma ClampBounds(minvalue: real, maxvalue: real, x: real)
    requires minvalue < maxvalue
    ensures minvalue <= Clamp(minvalue, maxvalue, x) <= maxvalue
    ensures x <= minvalue ==> Clamp(minvalue, maxvalue, x) == minvalue
    ensures x >= maxvalue ==> Clamp(minvalue, maxvalue, x) == maxvalue
    ensures minvalue <= x <= maxvalue ==> Clamp(minvalue, maxvalue, x) == x
  {
  }

  lemma QuotientBounds(m: real, e: real, d: real)
    requires m >= 0.0 && d > 0.0 && 0.0 <= e <= d
    ensures 0.0 <= Scaled(m, e, d) <= m
    ensures e == d ==> Scaled(m, e, d) == m
    ensures e == 0.0 ==> Scaled(m, e, d) == 0.0
  {
    MulMonotone(m, 0.0, e);
    MulMonotone(m, e, d);
    DivMonotone(0.0, m * e, d);
    DivMonotone(m * e, m * d, d);
    MulDivCancel(m, d);
  }

  lemma QuotientMonotone(m: real, e1: real, e2: real, d: real)
    requires m >= 0.0 && d > 0.0 && 0.0 <= e1 <= e2
    ensures 0.0 <= Scaled(m, e1, d) <= Scaled(m, e2, d)
  {
    MulMonotone(m, 0.0, e1);
    MulMonotone(m, e1, e2);
    DivMonotone(0.0, m * e1, d);
    DivMonotone(m * e1, m * e2, d);
  }

  /** On a proper range and a non-negative maxint, every value converts into
    * [0, maxint]; minvalue goes to 0 and maxvalue to maxint. */
  lemma Float2IntegerBounds(maxint: int, minvalue: real, maxvalue: real, x: real)
    requires minvalue < maxvalue && maxint >= 0
    ensures 0 <= Float2Integer(maxint, minvalue, maxvalue, x) <= maxint
    ensures x <= minvalue ==> Float2Integer(maxint, minvalue, maxvalue, x) == 0
    ensures x >= maxvalue ==> Float2Integer(maxint, minvalue, maxvalue, x) == maxint
  {
    var e := Clamp(minvalue, maxvalue, x) - minvalue;
    var q := Scaled(maxint as real, e, maxvalue - minvalue);
    ClampBounds(minvalue, maxvalue, x);
    QuotientBounds(maxint as real, e, maxvalue - minvalue);
    TruncBound(q, maxint);
    if x >= maxvalue {
      assert q == maxint as real;
      assert Trunc(q) == maxint;
    }
  }

  /** On a proper range and a non-negative maxint the conversion keeps order. */
  lemma Float2IntegerMonotone(maxint: int, minvalue: real, maxvalue: real, x: real, y: real)
    requires minvalue < maxvalue && maxint >= 0 && x <= y
    ensures Float2Integer(maxint, minvalue, maxvalue, x) <= Float2Integer(maxint, minvalue, maxvalue, y)
  {
    var ex := Clamp(minvalue, maxvalue, x) - minvalue;
    var ey := Clamp(minvalue, maxvalue, y) - minvalue;
    ClampBounds(minvalue, maxvalue, x);
    ClampBounds(minvalue, maxvalue, y);
    QuotientMonotone(maxint as real, ex, ey, maxvalue - minvalue);
    TruncMonotone(Scaled(maxint as real, ex, maxvalue - minvalue), Scaled(maxint as real, ey, maxvalue - minvalue));
  }

  /** The pair the `value` setter converts: a reversed pair is swapped, the
    * lower end raised to minvalue and the upper end lowered to maxvalue. */
  function Arranged(minvalue: real, maxvalue: real, a: real, b: real): (r: (real, real))
    ensures (r.0 == a || r.0 == b || r.0 == minvalue) && (r.1 == a || r.1 == b || r.1 == maxvalue)
    ensures r.0 >= minvalue && r.1 <= maxvalue
    ensures minvalue <= (if a <= b then a else b) ==> r.0 == (if a <= b then a else b)
    ensures (if a <= b then b else a) <= maxvalue ==> r.1 == (if a <= b then b else a)
    ensures r.0 > r.1 ==> r.0 == minvalue || r.1 == maxvalue
  {
    var lo := if a > b then b else a;
    var hi := if a > b then a else b;
    (if lo < minvalue then minvalue else lo, if hi > maxvalue then maxvalue else hi)
  }

  class RangeSlider {
    const maxint: int
    const minvalue: real
    const maxvalue: real
    /** The initial selection as integers, restored by the reset buttons. */
    const intvaluemin: int
    const intvaluemax: int
    /** Whether the reset buttons were created. */
    const resetbutton: bool
    /** `slider.v_model`. */
    var v1: int
    var v2: int
    var upminDisabled: bool
    var dnminDisabled: bool
    var upmaxDisabled: bool
    var dnmaxDisabled: bool
    /** `slider.disabled` and the reset buttons' flags. */
    var sliderDisabled: bool
    var resminDisabled: bool
    var resmaxDisabled: bool
    var changes: seq<(int, int)>

    /** The slider pair is ordered and inside [0, maxint]. */
    ghost predicate Valid()
      reads this
    {
      0 <= v1 <= v2 <= maxint
    }

    /** Each step button is disabled exactly when its step is not allowed. */
    ghost predicate ButtonsMatch()
      reads this
    {
      upminDisabled == (v1 >= v2) && dnminDisabled == (v1 <= 0) &&
      upmaxDisabled == (v2 >= maxint) && dnmaxDisabled == (v2 <= v1)
    }

    /** `rangeSliderFloat(selectedminvalue, selectedmaxvalue, minvalue,
      * maxvalue, decimals=..., maxint=...)`: the selection converted to
      * integers; no button starts disabled. */
    constructor(selectedminvalue: real, selectedmaxvalue: real, minvalue: real, maxvalue: real,
                decimals: int, givenMaxint: Option<int>, resetbutton: bool)
      requires minvalue != maxvalue
      ensures maxint == (if givenMaxint.Some? then givenMaxint.value else DefaultMaxint(decimals))
      ensures this.minvalue == minvalue && this.maxvalue == maxvalue
      ensures intvaluemin == Float2Integer(maxint, minvalue, maxvalue, selectedminvalue)
      ensures intvaluemax == Float2Integer(maxint, minvalue, maxvalue, selectedmaxvalue)
      ensures v1 == intvaluemin && v2 == intvaluemax && changes == []
      ensures !upminDisabled && !dnminDisabled && !upmaxDisabled && !dnmaxDisabled
      ensures this.resetbutton == resetbutton && !sliderDisabled && !resminDisabled && !resmaxDisabled
      ensures minvalue < maxvalue && maxint >= 0 && selectedminvalue <= selectedmaxvalue ==> Valid()
    {
      var m := if givenMaxint.Some? then givenMaxint.value else DefaultMaxint(decimals);
      maxint := m;
      this.minvalue := minvalue;
      this.maxvalue := maxvalue;
      intvaluemin := Float2Integer(m, minvalue, maxvalue, selectedminvalue);
      intvaluemax := Float2Integer(m, minvalue, maxvalue, selectedmaxvalue);
      v1 := Float2Integer(m, minvalue, maxvalue, selectedminvalue);
      v2 := Float2Integer(m, minvalue, maxvalue, selectedmaxvalue);
      upminDisabled, dnminDisabled, upmaxDisabled, dnmaxDisabled := false, false, false, false;
      this.resetbutton := resetbutton;
      sliderDisabled, resminDisabled, resmaxDisabled := false, false, false;
      changes := [];
      if minvalue < maxvalue && m >= 0 && selectedminvalue <= selectedmaxvalue {
        Float2IntegerBounds(m, minvalue, maxvalue, selectedminvalue);
        Float2IntegerBounds(m, minvalue, maxvalue, selectedmaxvalue);
        Float2IntegerMonotone(m, minvalue, maxvalue, selectedminvalue, selectedmaxvalue);
      }
    }

    /** `onsliderchange`: report the pair and disable each step button whose
      * guard fails. */
    method OnSliderChange()
      modifies this`upminDisabled, this`dnminDisabled, this`upmaxDisabled, this`dnmaxDisabled, this`changes
      ensures ButtonsMatch() && changes == old(changes) + [(v1, v2)]
    {
      changes := changes + [(v1, v2)];
      upminDisabled := v1 >= v2;
      dnminDisabled := v1 <= 0;
      upmaxDisabled := v2 >= maxint;
      dnmaxDisabled := v2 <= v1;
    }

    /** `onupmin`: the lower end rises by one while below the upper end. */
    method UpMin()
      modifies this
      ensures old(v1) < old(v2) ==>
                v1 == old(v1) + 1 && v2 == old(v2) && ButtonsMatch() && changes == old(changes) + [(v1, v2)]
      ensures old(v1) >= old(v2) ==> unchanged(this)
      ensures old(Valid()) ==> Valid()
    {
      if v1 < v2 {
        v1 := v1 + 1;
        OnSliderChange();
      }
    }

    /** `ondnmin`: the lower end falls by one while above zero. */
    method DnMin()
      modifies this
      ensures old(v1) > 0 ==>
                v1 == old(v1) - 1 && v2 == old(v2) && ButtonsMatch() && changes == old(changes) + [(v1, v2)]
      ensures old(v1) <= 0 ==> unchanged(this)
      ensures old(Valid()) ==> Valid()
    {
      if v1 > 0 {
        v1 := v1 - 1;
        OnSliderChange();
      }
    }

    /** `onupmax`: the upper end rises by one while below maxint. */
    method UpMax()
      modifies this
      ensures old(v2) < maxint ==>
                v2 == old(v2) + 1 && v1 == old(v1) && ButtonsMatch() && changes == old(changes) + [(v1, v2)]
      ensures old(v2) >= maxint ==> unchanged(this)
      ensures old(Valid()) ==> Valid()
    {
      if v2 < maxint {
        v2 := v2 + 1;
        OnSliderChange();
      }
    }

    /** `ondnmax`: the upper end falls by one while above the lower end. */
    method DnMax()
      modifies this
      ensures old(v2) > old(v1) ==>
                v2 == old(v2) - 1 && v1 == old(v1) && ButtonsMatch() && changes == old(changes) + [(v1, v2)]
      ensures old(v2) <= old(v1) ==> unchanged(this)
      ensures old(Valid()) ==> Valid()
    {
      if v2 > v1 {
        v2 := v2 - 1;
        OnSliderChange();
      }
    }

    /** `onresetmin`: the lower end goes back to its initial integer without
      * any check against the upper end, so order survives only when that
      * integer is not above the current upper end. */
    method ResetMin()
      modifies this
      ensures v1 == intvaluemin && v2 == old(v2) && ButtonsMatch() && changes == old(changes) + [(v1, v2)]
      ensures old(Valid()) && 0 <= intvaluemin ==> (Valid() <==> intvaluemin <= old(v2))
    {
      v1 := intvaluemin;
      OnSliderChange();
    }

    /** `onresetmax`: the upper end goes back to its initial integer, with no
      * check against the lower end. */
    method ResetMax()
      modifies this
      ensures v2 == intvaluemax && v1 == old(v1) && ButtonsMatch() && changes == old(changes) + [(v1, v2)]
      ensures old(Valid()) && intvaluemax <= maxint ==> (Valid() <==> old(v1) <= intvaluemax)
    {
      v2 := intvaluemax;
      OnSliderChange();
    }

    /** The `value` setter: the arranged pair converted to integers. On a
      * proper range and a non-negative maxint the result is always valid,
      * whatever pair is given. */
    method SetValue(a: real, b: real)
      requires minvalue != maxvalue
      modifies this
      ensures v1 == Float2Integer(maxint, minvalue, maxvalue, Arranged(minvalue, maxvalue, a, b).0)
      ensures v2 == Float2Integer(maxint, minvalue, maxvalue, Arranged(minvalue, maxvalue, a, b).1)
      ensures ButtonsMatch() && changes == old(changes) + [(v1, v2)]
      ensures minvalue < maxvalue && maxint >= 0 ==> Valid()
    {
      var p := Arranged(minvalue, maxvalue, a, b);
      v1 := Float2Integer(maxint, minvalue, maxvalue, p.0);
      v2 := Float2Integer(maxint, minvalue, maxvalue, p.1);
      if minvalue < maxvalue && maxint >= 0 {
        Float2IntegerBounds(maxint, minvalue, maxvalue, p.0);
        Float2IntegerBounds(maxint, minvalue, maxvalue, p.1);
        if p.0 <= p.1 {
          Float2IntegerMonotone(maxint, minvalue, maxvalue, p.0, p.1);
        }
      }
      OnSliderChange();
    }

    /** The `disabled` setter: the slider, the reset buttons when there are
      * any, and all four step buttons take the flag, whatever the pair.
      * Until the pair next changes, the step buttons then no longer tell
      * which steps are allowed: enabled, the up-min button of an equal pair
      * is active; disabled, so are the buttons of steps that are allowed. */
    method SetDisabled(flag: bool)
      modifies this`sliderDisabled, this`resminDisabled, this`resmaxDisabled
      modifies this`upminDisabled, this`dnminDisabled, this`upmaxDisabled, this`dnmaxDisabled
      ensures sliderDisabled == flag
      ensures upminDisabled == flag && dnminDisabled == flag && upmaxDisabled == flag && dnmaxDisabled == flag
      ensures resetbutton ==> resminDisabled == flag && resmaxDisabled == flag
      ensures !resetbutton ==> resminDisabled == old(resminDisabled) && resmaxDisabled == old(resmaxDisabled)
      ensures !flag && v1 == v2 ==> !ButtonsMatch()
      ensures flag && 0 < v1 < v2 ==> !ButtonsMatch()
    {
      sliderDisabled := flag;
      if resetbutton {
        resminDisabled := flag;
        resmaxDisabled := flag;
      }
      upminDisabled := flag;
      dnminDisabled := flag;
      upmaxDisabled := flag;
      dnmaxDisabled := flag;
    }
  }
}
