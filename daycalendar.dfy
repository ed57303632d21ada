/** The calendar of `dayCalendar` (deploy/vois/vuetify/dayCalendar.py): the
  * span of weeks between two dates, which sizes the card, and the events
  * built from the list of highlighted days. A date is its proleptic
  * Gregorian ordinal, as `date.toordinal()` gives it: day 1 is Monday
  * 1 January of year 1, so the weekday (Monday 0) is `(d - 1) % 7`. A day in
  * the highlighted list is its `YYYY-MM-DD` string. */
module DayCalendar {
  import opened Wrappers

  /** `date.weekday()`: 0 for Monday up to 6 for Sunday. */
  function Weekday(d: int): (r: int)
    ensures 0 <= r < 7
  {
    (d - 1) % 7
  }

  /** The Monday of the week of `d`: `d + timedelta(days=-d.weekday())`. */
  function Monday(d: int): (r: int)
    ensures r <= d < r + 7 && Weekday(r) == 0
  {
    d - Weekday(d)
  }

  /** `number_of_weeks(start, end)`. The two Mondays are a whole number of
    * weeks apart, so the floor division is exact. */
  function NumberOfWeeks(start: int, end: int): (r: int)
    ensures Monday(start) + 7 * (r - 1) == Monday(end)
  {
    MondaysWeeksApart(start, end);
    1 + (Monday(end) - Monday(start)) / 7
  }

  lemma MondaysWeeksApart(start: int, end: int)
    ensures (Monday(end) - Monday(start)) % 7 == 0
  {
    var a := Monday(start);
    var b := Monday(end);
    assert (a - 1) % 7 == 0 && (b - 1) % 7 == 0;
    var qa := (a - 1) / 7;
    var qb := (b - 1) / 7;
    assert a - 1 == 7 * qa;
    assert b - 1 == 7 * qb;
    assert b - a == 7 * (qb - qa);
  }

  /** From a start to an end not before it, the weeks counted are the ones
    * that hold a day of the period: the end falls in the last of them. Two
    * days of the same week span one week. */
  lemma NumberOfWeeksCovers(start: int, end: int)
    requires start <= end
    ensures NumberOfWeeks(start, end) >= 1
    ensures var n := NumberOfWeeks(start, end);
      Monday(start) + 7 * (n - 1) <= end < Monday(start) + 7 * n
    ensures Monday(start) == Monday(end) ==> NumberOfWeeks(start, end) == 1
  {
    var n := NumberOfWeeks(start, end);
    assert Monday(start) <= start <= end < Monday(end) + 7;
    assert 7 * (n - 1) >= 0 - 6;
  }

  /** A calendar event: its name and its day. */
  datatype Event = Event(name: string, start: string)

  /** The character shown once per occurrence of a day: U+02DA. */
  const RingAbove: char := '\U{02DA}'

  function Repeat(c: char, n: nat): (r: string)
    ensures |r| == n && forall i :: 0 <= i < n ==> r[i] == c
  {
    if n == 0 then [] else [c] + Repeat(c, n - 1)
  }

  /** The distinct days in the order of their first occurrence, the order of
    * a `collections.Counter`'s keys. */
  function Distinct(days: seq<string>): (r: seq<string>)
    decreases |days|
  {
    if days == [] then []
    else
      var init := Distinct(days[..|days| - 1]);
      if days[|days| - 1] in days[..|days| - 1] then init else init + [days[|days| - 1]]
  }

  /** Every day of the list appears exactly once. */
  lemma {:induction false} DistinctSpec(days: seq<string>)
    ensures forall d :: d in Distinct(days) <==> d in days
    ensures forall i, j :: 0 <= i < j < |Distinct(days)| ==> Distinct(days)[i] != Distinct(days)[j]
    decreases |days|
  {
    if days != [] {
      var init := days[..|days| - 1];
      DistinctSpec(init);
      assert days == init + [days[|days| - 1]];
    }
  }

  /** How many times a day occurs in the list. */
  function Occurrences(days: seq<string>, d: string): nat {
    multiset(days)[d]
  }

  /** `days2events`: with `show_count`, one event per distinct day named by
    * as many rings as the day occurs; without, one event per distinct day
    * with an empty name. */
  function Events(days: seq<string>, showCount: bool): (r: seq<Event>)
  {
    var ds := Distinct(days);
    seq(|ds|, i requires 0 <= i < |ds| =>
      Event(if showCount then Repeat(RingAbove, Occurrences(days, ds[i])) else "", ds[i]))
  }

  /** There is one event per distinct day, no two on the same day; with
    * counting its name is a ring per occurrence, otherwise empty. */
  lemma EventsSpec(days: seq<string>, showCount: bool)
    ensures forall d :: (exists i :: 0 <= i < |Events(days, showCount)| && Events(days, showCount)[i].start == d) <==> d in days
    ensures forall i, j :: 0 <= i < j < |Events(days, showCount)| ==>
              Events(days, showCount)[i].start != Events(days, showCount)[j].start
    ensures forall i :: 0 <= i < |Events(days, showCount)| ==>
              var e := Events(days, showCount)[i];
              if showCount then |e.name| == Occurrences(days, e.start) && forall k :: 0 <= k < |e.name| ==> e.name[k] == RingAbove
              else e.name == ""
  {
    DistinctSpec(days);
    var ev := Events(days, showCount);
    var ds := Distinct(days);
    forall d | d in days
      ensures exists i :: 0 <= i < |ev| && ev[i].start == d
    {
      var i :| 0 <= i < |ds| && ds[i] == d;
      assert ev[i].start == d;
    }
  }

  /** The total of the rings, summed over the distinct days. */
  function TotalCount(ds: seq<string>, days: seq<string>): nat
    decreases |ds|
  {
    if ds == [] then 0 else Occurrences(days, ds[0]) + TotalCount(ds[1..], days)
  }

  /** With counting, the events hold one ring per entry of the list. */
  lemma {:induction false} EventsCountAll(days: seq<string>)
    ensures TotalCount(Distinct(days), days) == |days|
    decreases |days|
  {
    if days != [] {
      var init := days[..|days| - 1];
      var x := days[|days| - 1];
      assert days == init + [x];
      EventsCountAll(init);
      DistinctSpec(init);
      TotalCountOnto(Distinct(init), init, x);
      if x in init {
        assert Distinct(days) == Distinct(init);
      } else {
        assert Distinct(days) == Distinct(init) + [x];
        TotalCountSnoc(Distinct(init), days, x);
        assert Occurrences(days, x) == 1;
      }
    }
  }

  /** Adding a day to the list adds one to the total over distinct days
    * that include it, and nothing over days that do not. */
  lemma {:induction false} TotalCountOnto(ds: seq<string>, init: seq<string>, x: string)
    requires forall i, j :: 0 <= i < j < |ds| ==> ds[i] != ds[j]
    ensures TotalCount(ds, init + [x]) == TotalCount(ds, init) + (if x in ds then 1 else 0)
    decreases |ds|
  {
    if ds != [] {
      assert multiset(init + [x]) == multiset(init) + multiset{x};
      assert forall i, j :: 0 <= i < j < |ds[1..]| ==> ds[1..][i] != ds[1..][j] by {
        forall i, j | 0 <= i < j < |ds[1..]| ensures ds[1..][i] != ds[1..][j] {
          assert ds[1..][i] == ds[i + 1] && ds[1..][j] == ds[j + 1];
        }
      }
      TotalCountOnto(ds[1..], init, x);
      if ds[0] == x {
        assert x !in ds[1..] by {
          forall k | 0 <= k < |ds[1..]| ensures ds[1..][k] != x {
            assert ds[1..][k] == ds[k + 1];
          }
        }
      } else {
        assert (x in ds) == (x in ds[1..]) by {
          assert ds == [ds[0]] + ds[1..];
        }
      }
    }
  }

  lemma {:induction false} TotalCountSnoc(ds: seq<string>, days: seq<string>, x: string)
    ensures TotalCount(ds + [x], days) == TotalCount(ds, days) + Occurrences(days, x)
    decreases |ds|
  {
    if ds == [] {
      assert [x][1..] == [];
    } else {
      assert (ds + [x])[1..] == ds[1..] + [x];
      TotalCountSnoc(ds[1..], days, x);
    }
  }

  /** The card's height per week, and the margin added when no height is
    * given. */
  const WeekHeight := 53
  const HeightMargin := 10

  class DayCalendar {
    const start: int
    const end: int
    const showCount: bool
    const width: int
    /** `_color` and the calendar's `event_color`. */
    var color: string
    var eventColor: string
    /** `_days`, `events` and the calendar's `events`. */
    var days: seq<string>
    var events: seq<Event>
    var calEvents: seq<Event>
    const cardHeight: int
    const height: int

    /** The events and the calendar show the days, and the calendar uses the
      * colour. */
    ghost predicate Valid()
      reads this
    {
      events == Events(days, showCount) && calEvents == events && eventColor == color
    }

    /** `dayCalendar(start, end, color=..., days=..., show_count=...,
      * width=..., height=...)`: the card is 53 pixels per week and, without
      * a given height, the widget is 10 pixels taller than the card. */
    constructor(start: int, end: int, color: string, days: seq<string>, showCount: bool, width: int, height: Option<int>)
      ensures this.start == start && this.end == end && this.showCount == showCount && this.width == width
      ensures this.color == color && this.days == days
      ensures cardHeight == WeekHeight * NumberOfWeeks(start, end)
      ensures height.None? ==> this.height == HeightMargin + WeekHeight * NumberOfWeeks(start, end)
      ensures height.Some? ==> this.height == height.value
      ensures Valid()
    {
      this.start := start;
      this.end := end;
      this.color := color;
      this.days := days;
      this.showCount := showCount;
      this.width := width;
      eventColor := color;
      events := [];
      calEvents := [];
      var ch := WeekHeight * NumberOfWeeks(start, end);
      cardHeight := ch;
      this.height := if height.None? then HeightMargin + ch else height.value;
      new;
      Days2Events();
    }

    /** `days2events`: the events rebuilt from the days and handed to the
      * calendar. */
    method Days2Events()
      modifies this`events, this`calEvents
      ensures events == Events(days, showCount) && calEvents == events
    {
      events := Events(days, showCount);
      calEvents := events;
    }

    /** The `days` setter: the list replaced and the events rebuilt. */
    method SetDays(listofdays: seq<string>)
      requires Valid()
      modifies this`days, this`events, this`calEvents
      ensures days == listofdays && Valid()
    {
      days := listofdays;
      Days2Events();
    }

    /** The `color` setter. */
    method SetColor(col: string)
      requires Valid()
      modifies this`color, this`eventColor
      ensures color == col && Valid()
    {
      color := col;
      eventColor := color;
    }
  }
}
