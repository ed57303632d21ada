/** The item list of `paletteEditor` (src/vois/vuetify/paletteEditor.py):
  * each palette entry is a value, a class name and a colour; the toolbar
  * renumbers the values, reverses the order or recolours the entries. */
module PaletteEditor {
  import opened Wrappers
  import opened PyStrings
  import Colors

  datatype Item = Item(value: int, cls: string, color: string)

  /** `colorlist2Items`: one entry per colour, in order, valued 0 with an
    * empty class. */
  function ColorList2Items(colors: seq<string>): (r: seq<Item>)
    ensures |r| == |colors|
    ensures forall i :: 0 <= i < |r| ==> r[i].value == 0 && r[i].cls == "" && r[i].color == colors[i]
  {
    seq(|colors|, i requires 0 <= i < |colors| => Item(0, "", colors[i]))
  }

  /** The `colors` getter: the entries' colours in order. */
  function ItemColors(items: seq<Item>): (r: seq<string>)
    ensures |r| == |items| && forall i :: 0 <= i < |r| ==> r[i] == items[i].color
  {
    seq(|items|, i requires 0 <= i < |items| => items[i].color)
  }

  /** Reading the colours back from items built from a colour list gives the
    * list. */
  lemma ItemColorsOfColorList(colors: seq<string>)
    ensures ItemColors(ColorList2Items(colors)) == colors
  {
  }

  // ---------------------------------------------------------------- RGB

  function UpperChar(c: char): char {
    if 'a' <= c <= 'z' then (c as int - 32) as char else c
  }

  function Upper(s: string): (r: string)
    ensures |r| == |s|
  {
    seq(|s|, i requires 0 <= i < |s| => UpperChar(s[i]))
  }

  lemma UpperConcat(a: string, b: string)
    ensures Upper(a + b) == Upper(a) + Upper(b)
  {
    assert forall i :: 0 <= i < |a + b| ==> Upper(a + b)[i] == (Upper(a) + Upper(b))[i];
  }

  predicate IsUpperHexDigit(ch: char) {
    '0' <= ch <= '9' || 'A' <= ch <= 'F'
  }

  /** `'#'` followed by exactly six upper-case hexadecimal digits. */
  predicate IsUpperHexColor(s: string) {
    |s| == 7 && s[0] == '#' && forall i :: 1 <= i < 7 ==> IsUpperHexDigit(s[i])
  }

  /** `RGB(r, g, b)`: `'#{:02X}{:02X}{:02X}'`, the upper-case form of
    * `rgb2hex`. */
  function RGB(c: Colors.Rgb): (r: string)
    ensures r == Upper(Colors.Rgb2Hex(c))
  {
    UpperConcat("#" + Colors.Format02x(c.r) + Colors.Format02x(c.g), Colors.Format02x(c.b));
    UpperConcat("#" + Colors.Format02x(c.r), Colors.Format02x(c.g));
    UpperConcat("#", Colors.Format02x(c.r));
    "#" + Upper(Colors.Format02x(c.r)) + Upper(Colors.Format02x(c.g)) + Upper(Colors.Format02x(c.b))
  }

  /** A byte printed with `{:02X}` is two upper-case digits denoting it. */
  lemma UpperByte(n: int)
    requires 0 <= n < 256
    ensures var u := Upper(Colors.Format02x(n));
      |u| == 2 && IsUpperHexDigit(u[0]) && IsUpperHexDigit(u[1]) && Colors.PairValue(u[0], u[1]) == n
  {
    var h := Colors.Format02x(n);
    var u := Upper(h);
    assert u[0] == UpperChar(h[0]) && u[1] == UpperChar(h[1]);
    assert DigitValue(u[0]) == DigitValue(h[0]);
    assert DigitValue(u[1]) == DigitValue(h[1]);
  }

  /** In range, `RGB` is `#RRGGBB` with each pair denoting its channel. */
  lemma RGBSpec(c: Colors.Rgb)
    requires Colors.InRange(c)
    ensures var r := RGB(c);
      && IsUpperHexColor(r)
      && Colors.PairValue(r[1], r[2]) == c.r && Colors.PairValue(r[3], r[4]) == c.g && Colors.PairValue(r[5], r[6]) == c.b
  {
    var r := RGB(c);
    var ur := Upper(Colors.Format02x(c.r));
    var ug := Upper(Colors.Format02x(c.g));
    var ub := Upper(Colors.Format02x(c.b));
    UpperByte(c.r);
    UpperByte(c.g);
    UpperByte(c.b);
    assert r == "#" + ur + ug + ub;
    assert r[1] == ur[0] && r[2] == ur[1];
    assert r[3] == ug[0] && r[4] == ug[1];
    assert r[5] == ub[0] && r[6] == ub[1];
  }

  /** `int(ab, 16)` of two upper-case hexadecimal digits. */
  lemma ParseUpperPair(a: char, b: char)
    requires IsUpperHexDigit(a) && IsUpperHexDigit(b)
    ensures ParseInt([a, b], 16) == Ok(Colors.PairValue(a, b))
  {
    var s := [a, b];
    StripNoSpace(s);
    assert SignFree(s) == s;
    assert WithoutPrefix(s, 16) == s;
    assert ValidDigits(s, 16);
    assert s[..1] == [a];
    assert [a][..0] == [];
    assert DigitsValue([a], 16) == DigitValue(a);
    assert DigitsValue(s, 16) == Colors.PairValue(a, b);
  }

  /** `hex2rgb` reads an in-range `RGB` string back to its channels. */
  lemma RGBRoundTrip(c: Colors.Rgb)
    requires Colors.InRange(c)
    ensures Colors.Hex2Rgb(RGB(c)) == Ok(c)
  {
    var s := RGB(c);
    RGBSpec(c);
    var t := s[1..];
    assert Slice(t, 0, 2) == [s[1], s[2]];
    assert Slice(t, 2, 4) == [s[3], s[4]];
    assert Slice(t, 4, 6) == [s[5], s[6]];
    ParseUpperPair(s[1], s[2]);
    ParseUpperPair(s[3], s[4]);
    ParseUpperPair(s[5], s[6]);
  }

  // ---------------------------------------------------------------- item edits

  /** Every entry valued `start` plus its position, colour and class kept. */
  function Renumbered(items: seq<Item>, start: int): (r: seq<Item>)
    ensures |r| == |items|
  {
    seq(|items|, i requires 0 <= i < |items| => items[i].(value := start + i))
  }

  /** Renumbering keeps colours and classes, starts at `start` and rises by
    * one from each entry to the next. */
  lemma RenumberedSpec(items: seq<Item>, start: int)
    ensures var r := Renumbered(items, start);
      && ItemColors(r) == ItemColors(items)
      && (forall i :: 0 <= i < |r| ==> r[i].cls == items[i].cls)
      && (|r| > 0 ==> r[0].value == start)
      && (forall i :: 0 <= i < |r| - 1 ==> r[i + 1].value == r[i].value + 1)
  {
  }

  /** The ascending renumbering from the first value keeps the first value. */
  lemma AscendingKeepsFirst(items: seq<Item>)
    requires |items| > 0
    ensures Renumbered(items, items[0].value)[0] == items[0]
  {
  }

  /** The descending renumbering ends at the old last value. */
  lemma DescendingKeepsLast(items: seq<Item>)
    requires |items| > 0
    ensures var n := |items|;
      Renumbered(items, items[n - 1].value - n + 1)[n - 1] == items[n - 1]
  {
  }

  /** Every entry given colour `colorlist[i mod len]`, values and classes
    * kept. */
  function Recolored(items: seq<Item>, colorlist: seq<string>): (r: seq<Item>)
    requires |colorlist| > 0
    ensures |r| == |items|
  {
    seq(|items|, i requires 0 <= i < |items| => items[i].(color := colorlist[i % |colorlist|]))
  }

  /** A non-zero multiple of k is at least k away from zero. */
  lemma MultipleAway(x: int, k: int)
    requires k > 0
    ensures x >= 1 ==> x * k >= k
    ensures x <= -1 ==> x * k <= -k
  {
    if x >= 1 {
      assert x * k == (x - 1) * k + k;
    } else if x <= -1 {
      assert x * k == (x + 1) * k - k;
    }
  }

  lemma ModShift(i: nat, k: nat)
    requires k > 0
    ensures (i + k) % k == i % k
  {
    var q, m := i / k, i % k;
    var q2, m2 := (i + k) / k, (i + k) % k;
    assert i == q * k + m;
    assert i + k == q2 * k + m2;
    assert (q + 1 - q2) * k == m2 - m;
    MultipleAway(q + 1 - q2, k);
  }

  /** The colours are the list repeated cyclically; values and classes stay. */
  lemma RecoloredSpec(items: seq<Item>, colorlist: seq<string>)
    requires |colorlist| > 0
    ensures var r := Recolored(items, colorlist);
      && (forall i :: 0 <= i < |r| ==> r[i].value == items[i].value && r[i].cls == items[i].cls)
      && (forall i :: 0 <= i < |r| - |colorlist| ==> r[i + |colorlist|].color == r[i].color)
  {
    var r := Recolored(items, colorlist);
    var k := |colorlist|;
    forall i | 0 <= i < |r| - k
      ensures r[i + k].color == r[i].color
    {
      ModShift(i, k);
    }
  }

  /** Setting as many colours as there are entries and reading them back
    * gives that list. */
  lemma RecoloredRoundTrip(items: seq<Item>, colorlist: seq<string>)
    requires |colorlist| == |items| > 0
    ensures ItemColors(Recolored(items, colorlist)) == colorlist
  {
    var r := ItemColors(Recolored(items, colorlist));
    forall i | 0 <= i < |r|
      ensures r[i] == colorlist[i]
    {
      assert i % |colorlist| == i;
    }
  }

  /** Reversing twice restores the order. */
  lemma ReverseTwice(items: seq<Item>)
    ensures Reverse(Reverse(items)) == items
  {
  }

  function Reverse(items: seq<Item>): (r: seq<Item>)
    ensures |r| == |items| && forall i :: 0 <= i < |r| ==> r[i] == items[|items| - 1 - i]
  {
    seq(|items|, i requires 0 <= i < |items| => items[|items| - 1 - i])
  }

  /** The editor's item list (the sortable list's `items`). */
  class PaletteEditor {
    var items: seq<Item>

    constructor(items: seq<Item>)
      ensures this.items == items
    {
      this.items := items;
    }

    /** The `colors` getter. */
    function CurrentColors(): (r: seq<string>)
      reads this
      ensures r == ItemColors(items)
    {
      ItemColors(items)
    }

    /** `onrevert`: the entries in reverse order. */
    method OnRevert()
      modifies this
      ensures items == Reverse(old(items))
    {
      items := Reverse(items);
    }

    /** `onzero`: every value set to 0, entry by entry. */
    method OnZero()
      modifies this
      ensures |items| == |old(items)|
      ensures forall i :: 0 <= i < |items| ==> items[i] == old(items)[i].(value := 0)
    {
      for i := 0 to |items|
        invariant |items| == |old(items)|
        invariant forall j :: 0 <= j < |items| ==> items[j] == if j < i then old(items)[j].(value := 0) else old(items)[j]
      {
        items := items[i := items[i].(value := 0)];
      }
    }

    /** `onasc`: values rising by one from the first value; nothing happens on
      * an empty palette. */
    method OnAsc()
      modifies this
      ensures |old(items)| == 0 ==> items == old(items)
      ensures |old(items)| > 0 ==> items == Renumbered(old(items), old(items)[0].value)
    {
      if |items| > 0 {
        var start := items[0].value;
        for i := 0 to |items|
          invariant |items| == |old(items)|
          invariant forall j :: 0 <= j < |items| ==> items[j] == if j < i then old(items)[j].(value := start + j) else old(items)[j]
        {
          items := items[i := items[i].(value := start + i)];
        }
      }
    }

    /** `ondesc`: values rising by one and ending at the last value; nothing
      * happens on an empty palette. */
    method OnDesc()
      modifies this
      ensures |old(items)| == 0 ==> items == old(items)
      ensures |old(items)| > 0 ==>
                items == Renumbered(old(items), old(items)[|old(items)| - 1].value - |old(items)| + 1)
    {
      if |items| > 0 {
        var n := |items|;
        var start := items[n - 1].value;
        for i := 0 to n
          invariant |items| == n
          invariant forall j :: 0 <= j < n ==> items[j] == if j < i then old(items)[j].(value := start - n + 1 + j) else old(items)[j]
        {
          items := items[i := items[i].(value := start - n + 1 + i)];
        }
      }
    }

    /** The `colors` setter: entry i takes `colorlist[i % len(colorlist)]`;
      * an empty list raises `ZeroDivisionError` at the first entry, so only
      * an empty palette accepts it. */
    method SetColors(colorlist: seq<string>) returns (status: Status)
      modifies this
      ensures |colorlist| == 0 && |old(items)| > 0 ==> status == Failure(ZeroDivisionError) && items == old(items)
      ensures |colorlist| == 0 && |old(items)| == 0 ==> status == Success && items == old(items)
      ensures |colorlist| > 0 ==> status == Success && items == Recolored(old(items), colorlist)
    {
      if |colorlist| == 0 {
        if |items| > 0 {
          return Failure(ZeroDivisionError);
        }
        return Success;
      }
      for i := 0 to |items|
        invariant |items| == |old(items)|
        invariant forall j :: 0 <= j < |items| ==> items[j] == if j < i then old(items)[j].(color := colorlist[j % |colorlist|]) else old(items)[j]
      {
        items := items[i := items[i].(color := colorlist[i % |colorlist|])];
      }
      status := Success;
    }
  }
}
