/** The bookkeeping of `svgBubblesChart` (vois/svgBubblesChart.py): the
  * greedy word wrap of long axis labels, the maps from each distinct axis
  * value to its position, and the legend flags that show or hide a colour
  * series. Drawing, the DataFrame and the click geometry are not modelled. */
module SvgBubbles {
  import opened Wrappers
  import opened PyStrings
  import opened Paths

  // ---------------------------------------------------------------- splitstring

  /** `s.replace('_', ' ').replace('-', ' ')`. */
  function Normalize(s: string): (r: string)
    ensures |r| == |s|
    ensures forall i :: 0 <= i < |s| ==> r[i] == if s[i] == '_' || s[i] == '-' then ' ' else s[i]
  {
    ReplaceChar(ReplaceChar(s, '_', ' '), '-', ' ')
  }

  /** The words of a label: split at single spaces once '_' and '-' are spaces. */
  function Words(s: string): seq<string> {
    Split(Normalize(s), " ")
  }

  /** The words, joined again with single spaces, are the normalised label. */
  lemma WordsJoin(s: string)
    ensures Join(Words(s), " ") == Normalize(s)
  {
    JoinSplit(Normalize(s), " ");
  }

  /** One round of the loop: the word joins the last row when it fits (an
    * empty row takes it as it is, a non-empty one after a space), otherwise
    * it starts a new row. With `fixed`, an empty row always takes the word. */
  function Place(rows: seq<string>, w: string, maxlen: int, fixed: bool): (r: seq<string>)
    requires |rows| >= 1
    ensures |r| >= 1
  {
    var last := rows[|rows| - 1];
    if (fixed && |last| == 0) || |last| <= maxlen - |w| then
      rows[|rows| - 1 := if |last| == 0 then w else last + " " + w]
    else
      rows + [w]
  }

  /** The rows after placing every word in turn, starting from one empty row. */
  function WrapWith(words: seq<string>, maxlen: int, fixed: bool): (r: seq<string>)
    ensures |r| >= 1
    decreases |words|
  {
    if words == [] then [""]
    else Place(WrapWith(words[..|words| - 1], maxlen, fixed), words[|words| - 1], maxlen, fixed)
  }

  /** The loop of `splitstring` as written: a first word longer than `maxlen`
    * leaves the initial empty row in place. */
  function WrapAsWritten(words: seq<string>, maxlen: int): seq<string> {
    WrapWith(words, maxlen, false)
  }

  /** The wrap the chart labels call for: the first word always opens the
    * first row. */
  function Wrap(words: seq<string>, maxlen: int): seq<string> {
    WrapWith(words, maxlen, true)
  }

  /** Appending to the last row appends to the joined text. */
  lemma JoinGrowLast(rows: seq<string>, x: string, sep: string)
    requires |rows| >= 1
    ensures Join(rows[|rows| - 1 := rows[|rows| - 1] + sep + x], sep) == Join(rows, sep) + sep + x
  {
    var n := |rows|;
    if n > 1 {
      var pre := rows[..n - 1];
      assert rows == pre + [rows[n - 1]];
      assert rows[n - 1 := rows[n - 1] + sep + x] == pre + [rows[n - 1] + sep + x];
      JoinSnoc(pre, rows[n - 1], sep);
      JoinSnoc(pre, rows[n - 1] + sep + x, sep);
    }
  }

  /** With no empty word, the rows joined by single spaces give back the
    * words joined by single spaces (no word is lost, none is reordered), and
    * no row is empty. */
  lemma {:induction false} WrapJoin(words: seq<string>, maxlen: int)
    requires forall i :: 0 <= i < |words| ==> |words[i]| > 0
    ensures Join(Wrap(words, maxlen), " ") == Join(words, " ")
    ensures |words| >= 1 ==> forall j :: 0 <= j < |Wrap(words, maxlen)| ==> |Wrap(words, maxlen)[j]| > 0
    decreases |words|
  {
    if words != [] {
      var init := words[..|words| - 1];
      var w := words[|words| - 1];
      assert words == init + [w];
      WrapJoin(init, maxlen);
      var rows := Wrap(init, maxlen);
      var last := rows[|rows| - 1];
      if init == [] {
        assert rows == [""];
      } else {
        JoinSnoc(init, w, " ");
        if |last| <= maxlen - |w| {
          JoinGrowLast(rows, w, " ");
        } else {
          JoinSnoc(rows, w, " ");
        }
      }
    }
  }

  /** The wrap is greedy: no two neighbouring rows would have fitted together. */
  lemma {:induction false} WrapGreedy(words: seq<string>, maxlen: int)
    ensures forall j :: 0 <= j < |Wrap(words, maxlen)| - 1 ==>
              |Wrap(words, maxlen)[j]| + |Wrap(words, maxlen)[j + 1]| > maxlen
    decreases |words|
  {
    if words != [] {
      var init := words[..|words| - 1];
      WrapGreedy(init, maxlen);
      var rows := Wrap(init, maxlen);
      var w := words[|words| - 1];
      var last := rows[|rows| - 1];
      assert Wrap(words, maxlen) == Place(rows, w, maxlen, true);
      if |last| == 0 || |last| <= maxlen - |w| {
        var grown := if |last| == 0 then w else last + " " + w;
        assert |grown| >= |last|;
        assert Wrap(words, maxlen) == rows[|rows| - 1 := grown];
      } else {
        assert Wrap(words, maxlen) == rows + [w];
      }
    }
  }

  /** A row longer than `maxlen + 1` is a single word; the `+ 1` is the space
    * of the join, which the fit test does not count. */
  lemma {:induction false} WrapRowBound(words: seq<string>, maxlen: int)
    requires maxlen >= 0
    ensures forall j :: 0 <= j < |Wrap(words, maxlen)| ==>
              |Wrap(words, maxlen)[j]| <= maxlen + 1 || Wrap(words, maxlen)[j] in words
    decreases |words|
  {
    if words != [] {
      var init := words[..|words| - 1];
      var w := words[|words| - 1];
      assert words == init + [w];
      WrapRowBound(init, maxlen);
      var rows := Wrap(init, maxlen);
      var last := rows[|rows| - 1];
      assert Wrap(words, maxlen) == Place(rows, w, maxlen, true);
      forall j | 0 <= j < |rows| ensures |rows[j]| <= maxlen + 1 || rows[j] in words {
      }
      if |last| == 0 {
        assert Wrap(words, maxlen) == rows[|rows| - 1 := w];
      } else if |last| <= maxlen - |w| {
        assert Wrap(words, maxlen) == rows[|rows| - 1 := last + " " + w];
      } else {
        assert Wrap(words, maxlen) == rows + [w];
      }
    }
  }

  /** As written, a first word longer than `maxlen` leaves an empty first row
    * ahead of it, for good. */
  lemma {:induction false} LeadingEmptyRow(words: seq<string>, maxlen: int)
    requires |words| >= 1 && |words[0]| > maxlen
    ensures |WrapAsWritten(words, maxlen)| >= 2 && WrapAsWritten(words, maxlen)[0] == ""
    decreases |words|
  {
    if |words| == 1 {
      assert words[..0] == [];
      assert WrapWith(words[..0], maxlen, false) == [""];
      assert WrapAsWritten(words, maxlen) == Place([""], words[0], maxlen, false);
    } else {
      var init := words[..|words| - 1];
      assert init[0] == words[0];
      LeadingEmptyRow(init, maxlen);
      assert WrapAsWritten(words, maxlen) == Place(WrapAsWritten(init, maxlen), words[|words| - 1], maxlen, false);
    }
  }

  /** A label without spaces, '_' or '-' is a single word. */
  lemma OneWord(s: string)
    requires ' ' !in s && '_' !in s && '-' !in s
    ensures Words(s) == [s]
  {
    assert Normalize(s) == s;
    SplitNoSep(s, ' ');
  }

  /** The label "ab" with `maxlen` 1: as written it wraps to two rows, an
    * empty one and the word; the corrected wrap gives the word alone. */
  lemma LongWordExample()
    ensures WrapAsWritten(Words("ab"), 1) == ["", "ab"]
    ensures Wrap(Words("ab"), 1) == ["ab"]
  {
    OneWord("ab");
    assert ["ab"][..0] == [];
  }

  /** `splitstring(s, maxlen)` as written: the unused row estimate
    * `(len(s) + maxlen - 1) / maxlen` raises ZeroDivisionError for `maxlen`
    * 0; otherwise a first word longer than `maxlen` fails the fit test
    * against the initial empty row and opens a second row (see
    * `WrapAsWritten`). */
  method SplitString(s: string, maxlen: int) returns (r: Result<seq<string>>)
    ensures maxlen == 0 <==> r == Err(ZeroDivisionError)
    ensures maxlen != 0 ==> r == Ok(WrapAsWritten(Words(s), maxlen))
  {
    if maxlen == 0 {
      return Err(ZeroDivisionError);
    }
    var words := Words(s);
    var rows := [""];
    var pos := 0;
    for i := 0 to |words|
      invariant rows == WrapAsWritten(words[..i], maxlen)
      invariant pos == |rows| - 1
    {
      assert words[..i + 1][..i] == words[..i];
      var www := words[i];
      if |rows[pos]| <= maxlen - |www| {
        if |rows[pos]| == 0 {
          rows := rows[pos := www];
        } else {
          rows := rows[pos := rows[pos] + " " + www];
        }
      } else {
        rows := rows + [www];
        pos := pos + 1;
      }
    }
    assert words[..|words|] == words;
    r := Ok(rows);
  }

  /** `splitstring` corrected: an empty row always takes the word, so the
    * first word opens the first row (see `Wrap`); `maxlen` 0 still raises
    * ZeroDivisionError in the row estimate. */
  method SplitStringCorrected(s: string, maxlen: int) returns (r: Result<seq<string>>)
    ensures maxlen == 0 <==> r == Err(ZeroDivisionError)
    ensures maxlen != 0 ==> r == Ok(Wrap(Words(s), maxlen))
  {
    if maxlen == 0 {
      return Err(ZeroDivisionError);
    }
    var words := Words(s);
    var rows := [""];
    var pos := 0;
    for i := 0 to |words|
      invariant rows == Wrap(words[..i], maxlen)
      invariant pos == |rows| - 1
    {
      assert words[..i + 1][..i] == words[..i];
      var www := words[i];
      if |rows[pos]| == 0 || |rows[pos]| <= maxlen - |www| {
        if |rows[pos]| == 0 {
          rows := rows[pos := www];
        } else {
          rows := rows[pos := rows[pos] + " " + www];
        }
      } else {
        rows := rows + [www];
        pos := pos + 1;
      }
    }
    assert words[..|words|] == words;
    r := Ok(rows);
  }

  // ---------------------------------------------------------------- label rows

  /** `maxlenx`: 20 characters, 12 when there are more than 15 x values. */
  function MaxLenX(nx: nat): (r: nat)
    ensures r == 12 <==> nx > 15
    ensures r == 20 <==> nx <= 15
  {
    if nx > 15 then 12 else 20
  }

  /** The rows the tallest wrapped x label needs: 1, or the row count of the
    * longest wrap among the labels longer than `maxlen`, wrapped by
    * `splitstring` as written. */
  function RowsNeeded(xs: seq<string>, maxlen: int): nat
    decreases |xs|
  {
    if xs == [] then 1
    else
      var m := RowsNeeded(xs[..|xs| - 1], maxlen);
      var x := xs[|xs| - 1];
      if |x| > maxlen && |WrapAsWritten(Words(x), maxlen)| > m then |WrapAsWritten(Words(x), maxlen)| else m
  }

  /** `RowsNeeded` is the maximum: at least 1, at least every long label's
    * row count, and equal to 1 or to one of them. */
  lemma {:induction false} RowsNeededIsMax(xs: seq<string>, maxlen: int)
    ensures RowsNeeded(xs, maxlen) >= 1
    ensures forall i :: 0 <= i < |xs| && |xs[i]| > maxlen ==> RowsNeeded(xs, maxlen) >= |WrapAsWritten(Words(xs[i]), maxlen)|
    ensures RowsNeeded(xs, maxlen) == 1 ||
            exists i :: 0 <= i < |xs| && |xs[i]| > maxlen && RowsNeeded(xs, maxlen) == |WrapAsWritten(Words(xs[i]), maxlen)|
    decreases |xs|
  {
    if xs != [] {
      var init := xs[..|xs| - 1];
      RowsNeededIsMax(init, maxlen);
      assert forall i :: 0 <= i < |init| ==> xs[i] == init[i];
    }
  }

  /** The `nrows` loop of the constructor over the sorted x values, which
    * wraps at `maxlenx` (12 or 20, so `splitstring` never divides by 0). */
  method LabelRows(xvalues: seq<string>) returns (nrows: nat)
    ensures nrows == RowsNeeded(xvalues, MaxLenX(|xvalues|))
  {
    var maxlenx := MaxLenX(|xvalues|);
    nrows := 1;
    for i := 0 to |xvalues|
      invariant nrows == RowsNeeded(xvalues[..i], maxlenx)
    {
      assert xvalues[..i + 1][..i] == xvalues[..i];
      var xvalue := xvalues[i];
      if |xvalue| > maxlenx {
        var rows := SplitString(xvalue, maxlenx);
        if |rows.value| > nrows {
          nrows := |rows.value|;
        }
      }
    }
    assert xvalues[..|xvalues|] == xvalues;
  }

  /** An x label that is one word longer than `maxlenx` (a 21-character
    * label among at most 15 values, say) needs two rows, the first of them
    * empty, where the corrected wrap needs one. */
  lemma OneLongLabelRows(x: string, maxlen: int)
    requires ' ' !in x && '_' !in x && '-' !in x && |x| > maxlen
    ensures RowsNeeded([x], maxlen) == 2
    ensures |Wrap(Words(x), maxlen)| == 1
  {
    OneWord(x);
    assert [x][..0] == [];
    assert WrapWith([x], maxlen, false) == Place(WrapWith([], maxlen, false), x, maxlen, false);
    assert WrapWith([x], maxlen, true) == Place(WrapWith([], maxlen, true), x, maxlen, true);
  }

  // ---------------------------------------------------------------- index maps

  /** `values.index(x)`: the first position holding `x`. */
  function IndexOf(values: seq<string>, x: string): (r: nat)
    requires x in values
    ensures r < |values| && values[r] == x
    ensures forall j :: 0 <= j < r ==> values[j] != x
  {
    if values[0] == x then 0 else 1 + IndexOf(values[1..], x)
  }

  predicate Distinct(values: seq<string>) {
    forall i, j :: 0 <= i < j < |values| ==> values[i] != values[j]
  }

  /** `xvaluesindex[x] = xvalues.index(x)` for every value in turn: every
    * value is a key, mapped to its first position. */
  method IndexMap(values: seq<string>) returns (m: map<string, nat>)
    ensures m.Keys == set x | x in values
    ensures forall x :: x in m ==> x in values && m[x] == IndexOf(values, x)
  {
    m := map[];
    for i := 0 to |values|
      invariant m.Keys == set x | x in values[..i]
      invariant forall x :: x in m ==> x in values && m[x] == IndexOf(values, x)
    {
      assert values[..i + 1] == values[..i] + [values[i]];
      m := m[values[i] := IndexOf(values, values[i])];
    }
    assert values[..|values|] == values;
  }

  /** For the sorted unique values the chart uses, each value maps to its own
    * position, and the map is onto the positions. */
  lemma IndexOfDistinct(values: seq<string>, i: nat)
    requires Distinct(values) && i < |values|
    ensures IndexOf(values, values[i]) == i
  {
  }

  // ---------------------------------------------------------------- legend flags

  /** A legend click on `item`: when it names a colour series and the event
    * is a click, that series' flag flips; nothing else changes. */
  function Flip(display: seq<bool>, item: int, isClick: bool): (r: seq<bool>)
    ensures |r| == |display|
    ensures forall j :: 0 <= j < |display| && j != item ==> r[j] == display[j]
    ensures 0 <= item < |display| ==> r[item] == (isClick != display[item])
  {
    if 0 <= item < |display| && isClick then display[item := !display[item]] else display
  }

  /** Two clicks on the same legend item restore the flags. */
  lemma FlipTwice(display: seq<bool>, item: int)
    ensures Flip(Flip(display, item, true), item, true) == display
  {
  }

  /** The index and display state of a chart. The x, y and colour values are
    * the sorted distinct values of their DataFrame columns. */
  class BubblesChart {
    var xvalues: seq<string>
    var yvalues: seq<string>
    var maxlenx: nat
    var maxleny: nat
    var xvaluesindex: map<string, nat>
    var yvaluesindex: map<string, nat>
    var colorvalues: seq<string>
    var display: seq<bool>

    /** Both maps send every axis value to its position. */
    ghost predicate Indexed()
      reads this
    {
      (forall i :: 0 <= i < |xvalues| ==> xvalues[i] in xvaluesindex && xvaluesindex[xvalues[i]] == i) &&
      (forall i :: 0 <= i < |yvalues| ==> yvalues[i] in yvaluesindex && yvaluesindex[yvalues[i]] == i) &&
      |display| == |colorvalues|
    }

    /** The constructor's bookkeeping; `colorvalues` is `None` without a
      * colour column (or with an empty column name). */
    constructor(xs: seq<string>, ys: seq<string>, colors: Option<seq<string>>)
      requires Distinct(xs) && Distinct(ys)
      ensures xvalues == xs && yvalues == ys && Indexed()
      ensures xvaluesindex.Keys == set x | x in xs && yvaluesindex.Keys == set y | y in ys
      ensures maxlenx == MaxLenX(|xs|) && maxleny == 12
      ensures colorvalues == (if colors.Some? then colors.value else [])
      ensures |display| == |colorvalues| && forall i :: 0 <= i < |display| ==> display[i]
    {
      xvalues := xs;
      yvalues := ys;
      maxlenx := MaxLenX(|xs|);
      maxleny := 12;
      var xm := IndexMap(xs);
      var ym := IndexMap(ys);
      forall i | 0 <= i < |xs| ensures xm[xs[i]] == i {
        IndexOfDistinct(xs, i);
      }
      forall i | 0 <= i < |ys| ensures ym[ys[i]] == i {
        IndexOfDistinct(ys, i);
      }
      xvaluesindex := xm;
      yvaluesindex := ym;
      if colors.Some? {
        colorvalues := colors.value;
        display := seq(|colors.value|, _ => true);
      } else {
        colorvalues := [];
        display := [];
      }
    }

    /** `handle_event` on legend item `item`. */
    method OnLegendClick(item: int, isClick: bool)
      requires Indexed()
      modifies this`display
      ensures Indexed()
      ensures display == Flip(old(display), item, isClick)
    {
      if 0 <= item < |display| {
        if isClick {
          display := display[item := !display[item]];
        }
      }
    }
  }
}
