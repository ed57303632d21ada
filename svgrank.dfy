/** The logic of `svgRankChart` (src/vois/svgRankChart.py): the input checks,
  * the ranking of the names by value, the split of a long name at its middle
  * space and the selection kept across clicks. The SVG text and the mapping
  * of click coordinates to a row are not modelled. */
module SvgRank {
  import opened Wrappers

  // ---------------------------------------------------------------- input checks

  /** The chart is built only for a non-empty list of names with one value
    * each and, with `fixedcolors`, one colour each; otherwise the function
    * returns `None`. */
  predicate Accepted(nnames: nat, nvalues: nat, fixedcolors: bool, ncolors: nat) {
    nnames != 0 && nnames == nvalues && !(fixedcolors && nnames != ncolors)
  }

  // ---------------------------------------------------------------- ranking

  /** The tuple `(name, value, originalposition)`; positions start at 1. */
  datatype Entry = Entry(name: string, value: real, position: nat)

  /** `zip(names, values, range(1, len(names) + 1))`. */
  function Entries(names: seq<string>, values: seq<real>): (r: seq<Entry>)
    requires |names| == |values|
    ensures |r| == |names|
    ensures forall i :: 0 <= i < |r| ==> r[i] == Entry(names[i], values[i], i + 1)
  {
    seq(|names|, i requires 0 <= i < |names| => Entry(names[i], values[i], i + 1))
  }

  predicate SortedDesc(s: seq<Entry>) {
    forall i, j :: 0 <= i < j < |s| ==> s[i].value >= s[j].value
  }

  /** Entries of equal value keep their original order. */
  predicate Stable(s: seq<Entry>) {
    forall i, j :: 0 <= i < j < |s| && s[i].value == s[j].value ==> s[i].position < s[j].position
  }

  predicate Increasing(s: seq<Entry>) {
    forall i, j :: 0 <= i < j < |s| ==> s[i].position < s[j].position
  }

  /** One step of a stable sort by descending value: `x` goes after every
    * entry of at least its value. */
  function Insert(s: seq<Entry>, x: Entry): (r: seq<Entry>)
    ensures multiset(r) == multiset(s) + multiset{x}
    ensures |r| == |s| + 1
    ensures r[0] == x || (|s| > 0 && r[0] == s[0])
    decreases |s|
  {
    if s == [] then [x]
    else if s[0].value >= x.value then
      assert s == [s[0]] + s[1..];
      [s[0]] + Insert(s[1..], x)
    else [x] + s
  }

  lemma {:induction false} InsertSorted(s: seq<Entry>, x: Entry)
    requires SortedDesc(s)
    ensures SortedDesc(Insert(s, x))
    decreases |s|
  {
    if s != [] && s[0].value >= x.value {
      InsertSorted(s[1..], x);
      var r := Insert(s, x);
      var t := Insert(s[1..], x);
      assert r == [s[0]] + t;
      forall j | 0 < j < |r| ensures r[0].value >= r[j].value {
        assert r[j] in multiset(t);
        assert r[j] == x || r[j] in s[1..];
      }
    }
  }

  /** An entry put in front of a stable sequence keeps it stable when it
    * comes before every entry of equal value. */
  lemma ConsStable(h: Entry, t: seq<Entry>)
    requires Stable(t)
    requires forall e :: e in t && e.value == h.value ==> h.position < e.position
    ensures Stable([h] + t)
  {
    var r := [h] + t;
    forall i, j | 0 <= i < j < |r| && r[i].value == r[j].value
      ensures r[i].position < r[j].position
    {
      assert r[j] == t[j - 1];
      if i > 0 {
        assert r[i] == t[i - 1];
      }
    }
  }

  lemma InsertMember(s: seq<Entry>, x: Entry, e: Entry)
    requires e in Insert(s, x)
    ensures e == x || e in s
  {
    assert e in multiset(Insert(s, x));
  }

  /** Inserting an entry later than all others keeps equal values in order. */
  lemma {:induction false} InsertStable(s: seq<Entry>, x: Entry)
    requires SortedDesc(s) && Stable(s)
    requires forall e :: e in s ==> e.position < x.position
    ensures Stable(Insert(s, x))
    decreases |s|
  {
    if s != [] && s[0].value >= x.value {
      var t := Insert(s[1..], x);
      InsertStable(s[1..], x);
      forall e | e in t && e.value == s[0].value ensures s[0].position < e.position {
        InsertMember(s[1..], x, e);
        if e != x {
          var k :| 0 <= k < |s[1..]| && s[1..][k] == e;
          assert s[k + 1] == e;
        }
      }
      ConsStable(s[0], t);
    } else if s != [] {
      ConsStable(x, s);
    }
  }

  /** `sorted(entries, key=lambda x: -x[1])`: Python's sort is stable. */
  function SortDesc(es: seq<Entry>): (r: seq<Entry>)
    ensures multiset(r) == multiset(es)
    ensures SortedDesc(r)
    decreases |es|
  {
    if es == [] then []
    else
      assert es == es[..|es| - 1] + [es[|es| - 1]];
      InsertSorted(SortDesc(es[..|es| - 1]), es[|es| - 1]);
      Insert(SortDesc(es[..|es| - 1]), es[|es| - 1])
  }

  /** Over entries listed in their original order, the ranking is a stable
    * permutation sorted by non-increasing value. */
  lemma {:induction false} SortDescStable(es: seq<Entry>)
    requires Increasing(es)
    ensures Stable(SortDesc(es))
    decreases |es|
  {
    if es != [] {
      var init := es[..|es| - 1];
      var x := es[|es| - 1];
      SortDescStable(init);
      forall e | e in SortDesc(init) ensures e.position < x.position {
        assert e in multiset(SortDesc(init));
        var k :| 0 <= k < |init| && init[k] == e;
      }
      InsertStable(SortDesc(init), x);
    }
  }

  /** `ordered`. */
  function Ranking(names: seq<string>, values: seq<real>): seq<Entry>
    requires |names| == |values|
  {
    SortDesc(Entries(names, values))
  }

  /** The ranking holds every `(name, value, position)` once, by
    * non-increasing value, ties in their original order. */
  lemma RankingSpec(names: seq<string>, values: seq<real>)
    requires |names| == |values|
    ensures multiset(Ranking(names, values)) == multiset(Entries(names, values))
    ensures SortedDesc(Ranking(names, values)) && Stable(Ranking(names, values))
  {
    SortDescStable(Entries(names, values));
  }

  /** The first entry of the ranking carries a largest value. */
  lemma FirstIsLargest(names: seq<string>, values: seq<real>)
    requires |names| == |values| && |names| > 0
    ensures |Ranking(names, values)| == |names|
    ensures forall i :: 0 <= i < |values| ==> Ranking(names, values)[0].value >= values[i]
    ensures 1 <= Ranking(names, values)[0].position <= |names|
    ensures values[Ranking(names, values)[0].position - 1] == Ranking(names, values)[0].value
  {
    var es := Entries(names, values);
    var r := Ranking(names, values);
    assert |r| == |multiset(r)| == |multiset(es)| == |es|;
    forall i | 0 <= i < |values| ensures r[0].value >= values[i] {
      assert es[i] in multiset(r);
      var k :| 0 <= k < |r| && r[k] == es[i];
    }
    assert r[0] in multiset(es);
    var k :| 0 <= k < |es| && es[k] == r[0];
  }

  // ---------------------------------------------------------------- splitString

  function Dist(i: int, mid: int): nat {
    if i < mid then mid - i else i - mid
  }

  /** `min(spaces, key=lambda x: abs(x - pos))` over the spaces before
    * `n`: the space nearest `mid`, the first one on ties (Python's `min`
    * keeps the first minimum); `None` when there is no space. */
  function Nearest(s: string, mid: int, n: nat): (r: Option<nat>)
    requires n <= |s|
    ensures r.None? <==> forall i :: 0 <= i < n ==> s[i] != ' '
    ensures r.Some? ==> r.value < n && s[r.value] == ' '
    ensures r.Some? ==> forall i :: 0 <= i < n && s[i] == ' ' ==>
              Dist(r.value, mid) < Dist(i, mid) || (Dist(r.value, mid) == Dist(i, mid) && r.value <= i)
    decreases n
  {
    if n == 0 then None
    else
      var r := Nearest(s, mid, n - 1);
      if s[n - 1] == ' ' && (r.None? || Dist(n - 1, mid) < Dist(r.value, mid)) then Some(n - 1) else r
  }

  /** `splitString(s)`: cut at the space nearest `len(s) // 2`, dropping it;
    * without a space, `(s, '')`. */
  function SplitName(s: string): (r: (string, string))
    ensures ' ' !in s ==> r == (s, "")
    ensures ' ' in s ==> r.0 + " " + r.1 == s
  {
    match Nearest(s, |s| / 2, |s|)
    case None => (s, "")
    case Some(b) =>
      assert s == s[..b] + " " + s[b + 1..];
      (s[..b], s[b + 1..])
  }

  /** The cut is at a space nearest the middle, the first such on ties. */
  lemma SplitNameAtNearest(s: string)
    requires ' ' in s
    ensures exists b :: 0 <= b < |s| && s[b] == ' ' && SplitName(s) == (s[..b], s[b + 1..]) &&
              forall i :: 0 <= i < |s| && s[i] == ' ' ==>
                Dist(b, |s| / 2) < Dist(i, |s| / 2) || (Dist(b, |s| / 2) == Dist(i, |s| / 2) && b <= i)
  {
    var k :| 0 <= k < |s| && s[k] == ' ';
    var b := Nearest(s, |s| / 2, |s|).value;
    assert SplitName(s) == (s[..b], s[b + 1..]);
  }

  // ---------------------------------------------------------------- selection

  /** The selection after a click on `elem`: with `enabledeselect`, a click
    * on the selected entry clears the selection (-1). */
  function NextSelected(selected: int, elem: Entry, enabledeselect: bool): (r: int)
    ensures r == -1 || r == elem.position
    ensures r == -1 <==> enabledeselect && selected == elem.position
  {
    if enabledeselect && elem.position == selected then -1 else elem.position
  }

  /** With `enabledeselect`, a second click on the same entry undoes the
    * first when nothing was selected. */
  lemma ClickTwice(elem: Entry)
    ensures NextSelected(NextSelected(-1, elem, true), elem, true) == -1
  {
  }

  /** What `on_change` receives: `None` once the selection is cleared. */
  function Notified(selected: int, elem: Entry): Option<Entry> {
    if selected < 0 then None else Some(elem)
  }

  /** The state of a chart once built: the ranking and the selected original
    * position; `notified` records the `on_change` calls. */
  class RankChart {
    const ordered: seq<Entry>
    const enabledeselect: bool
    var selected: int
    var notified: seq<Option<Entry>>

    /** Every selection is -1 or the position of a ranked entry. */
    ghost predicate Valid()
      reads this
    {
      selected == -1 || exists i :: 0 <= i < |ordered| && ordered[i].position == selected
    }

    constructor(names: seq<string>, values: seq<real>, enabledeselect: bool, selectfirstatstart: bool)
      requires |names| == |values| && |names| > 0
      ensures Valid()
      ensures ordered == Ranking(names, values) && this.enabledeselect == enabledeselect
      ensures selected == if selectfirstatstart then ordered[0].position else -1
      ensures notified == if selectfirstatstart then [Some(ordered[0])] else []
    {
      FirstIsLargest(names, values);
      ordered := Ranking(names, values);
      this.enabledeselect := enabledeselect;
      var r := Ranking(names, values);
      if selectfirstatstart {
        selected := r[0].position;
        notified := [Some(r[0])];
      } else {
        selected := -1;
        notified := [];
      }
    }

    /** A click on row `row` of the chart. A row outside Python's index range
      * raises `IndexError` and changes nothing. */
    method Click(row: int) returns (status: Status)
      requires Valid()
      modifies this
      ensures Valid()
      ensures PyIndex(|ordered|, row).None? ==>
                status == Failure(IndexError) && selected == old(selected) && notified == old(notified)
      ensures PyIndex(|ordered|, row).Some? ==>
                var elem := ordered[PyIndex(|ordered|, row).value];
                status == Success &&
                selected == NextSelected(old(selected), elem, enabledeselect) &&
                notified == old(notified) + [Notified(selected, elem)]
    {
      var k := PyIndex(|ordered|, row);
      if k.None? {
        return Failure(IndexError);
      }
      var elem := ordered[k.value];
      selected := NextSelected(selected, elem, enabledeselect);
      notified := notified + [Notified(selected, elem)];
      status := Success;
    }
  }

  /** `svgRankChart(...)` up to the drawing: `None` when the input checks
    * fail, else the chart. */
  method Create(names: seq<string>, values: seq<real>, fixedcolors: bool, ncolors: nat,
                enabledeselect: bool, selectfirstatstart: bool) returns (c: Option<RankChart>)
    ensures c.None? <==> !Accepted(|names|, |values|, fixedcolors, ncolors)
    ensures c.Some? ==> fresh(c.value) && c.value.Valid() && c.value.ordered == Ranking(names, values)
  {
    if |names| == 0 || |names| != |values| || (fixedcolors && |names| != ncolors) {
      return None;
    }
    var chart := new RankChart(names, values, enabledeselect, selectfirstatstart);
    c := Some(chart);
  }
}
