/** The state of `sortableList` (src/vois/vuetify/sortableList.py): the
  * items and, when an `itemContent` function is given, one card and one
  * down, up and remove button per item, kept as parallel lists, plus the
  * index of the active (raised) card. Widgets are records carrying the
  * number of the row they were created for, so that moving them around is
  * visible; the callbacks are an event log. */
module SortableList {
  import opened Wrappers

  datatype Btn = Btn(row: int, disabled: bool)
  datatype Card = Card(row: int, raised: bool)

  /** The user callbacks, in the order the list calls them. */
  datatype Event =
    | Changed
    | Added(index: int)
    | MovedDown(index: int)
    | MovedUp(index: int)
    | Removing(index: int)
    | Removed(index: int)
    | Activated(index: int)
    | Deactivated(index: int)

  /** The tuple assignment `s[b], s[a] = s[a], s[b]`. */
  function Swap<T>(s: seq<T>, i: int, j: int): (r: seq<T>)
    requires 0 <= i < |s| && 0 <= j < |s|
    ensures |r| == |s| && r[i] == s[j] && r[j] == s[i]
    ensures forall k :: 0 <= k < |s| && k != i && k != j ==> r[k] == s[k]
  {
    s[i := s[j]][j := s[i]]
  }

  /** `del s[i]`. */
  function RemoveAt<T>(s: seq<T>, i: int): (r: seq<T>)
    requires 0 <= i < |s|
    ensures |r| == |s| - 1
    ensures forall k :: 0 <= k < i ==> r[k] == s[k]
    ensures forall k :: i <= k < |r| ==> r[k] == s[k + 1]
  {
    s[..i] + s[i + 1..]
  }

  /** A swap only reorders: nothing is lost or duplicated. */
  lemma SwapPermutes<T>(s: seq<T>, i: int, j: int)
    requires 0 <= i < |s| && 0 <= j < |s|
    ensures multiset(Swap(s, i, j)) == multiset(s)
  {
    if i != j {
      var t := s[i := s[j]];
      assert multiset(t) == multiset(s) - multiset{s[i]} + multiset{s[j]};
      assert multiset(t[j := s[i]]) == multiset(t) - multiset{t[j]} + multiset{s[i]};
    }
  }

  /** Removing position i takes exactly one occurrence of `s[i]` away. */
  lemma RemoveAtMultiset<T>(s: seq<T>, i: int)
    requires 0 <= i < |s|
    ensures multiset(RemoveAt(s, i)) == multiset(s) - multiset{s[i]}
  {
    assert s == s[..i] + [s[i]] + s[i + 1..];
  }

  /** The buttons with every disabled flag reset, then the one at k set:
    * what `update_buttons` leaves in each button list. */
  function DisableOnly(bs: seq<Btn>, k: int): (r: seq<Btn>)
    ensures |r| == |bs|
    ensures forall i :: 0 <= i < |r| ==> r[i].row == bs[i].row && (r[i].disabled <==> i == k)
  {
    seq(|bs|, i requires 0 <= i < |bs| => Btn(bs[i].row, i == k))
  }

  /** The arrangement `update_buttons` establishes: only the last down
    * button and only the first up button are disabled. */
  ghost predicate ButtonsFlagged(bdowns: seq<Btn>, bups: seq<Btn>) {
    (forall i :: 0 <= i < |bdowns| ==> (bdowns[i].disabled <==> i == |bdowns| - 1)) &&
    (forall i :: 0 <= i < |bups| ==> (bups[i].disabled <==> i == 0))
  }

  function SetRaised(cs: seq<Card>, k: int, b: bool): (r: seq<Card>)
    requires 0 <= k < |cs|
    ensures |r| == |cs| && r[k] == Card(cs[k].row, b)
    ensures forall i :: 0 <= i < |cs| && i != k ==> r[i] == cs[i]
  {
    cs[k := Card(cs[k].row, b)]
  }

  /** Exactly the card at k is raised (none when k is -1). */
  ghost predicate RaisedAt(cs: seq<Card>, k: int) {
    forall i :: 0 <= i < |cs| ==> (cs[i].raised <==> i == k)
  }

  /** Where the row at k goes when the rows at a and b swap. */
  function Moved(k: int, a: int, b: int): int {
    if k == a then b else if k == b then a else k
  }

  /** The raised card moves with its row. */
  lemma SwapKeepsRaised(cs: seq<Card>, a: int, b: int, k: int)
    requires 0 <= a < |cs| && 0 <= b < |cs| && RaisedAt(cs, k)
    ensures RaisedAt(Swap(cs, a, b), Moved(k, a, b))
  {
  }

  /** The raised card keeps its row when another row is deleted, and
    * none is raised when its own row is. */
  lemma RemoveKeepsRaised(cs: seq<Card>, i: int, k: int)
    requires 0 <= i < |cs| && RaisedAt(cs, k)
    ensures RaisedAt(RemoveAt(cs, i), if k == i then -1 else if i < k then k - 1 else k)
  {
  }

  /** Lowering any card and raising the one already raised changes nothing. */
  lemma ReraiseKeeps(cs: seq<Card>, a: int, k: int)
    requires 0 <= a < |cs| && 0 <= k < |cs| && RaisedAt(cs, k)
    ensures SetRaised(SetRaised(cs, a, false), k, true) == cs
  {
    var r := SetRaised(SetRaised(cs, a, false), k, true);
    forall i | 0 <= i < |cs| ensures r[i] == cs[i] {
    }
  }

  /** The widgets `additem` creates for the rows of a fresh list of n items,
    * numbered from r0. */
  function FreshCards(r0: int, n: nat): seq<Card> {
    seq(n, k => Card(r0 + k, false))
  }

  function FreshButtons(r0: int, n: nat, disabledAt: int): seq<Btn> {
    seq(n, k => Btn(r0 + k, k == disabledAt))
  }

  /** `s.insert(0, x)` when `onTop`, otherwise `s.append(x)`. */
  function Put<T>(s: seq<T>, x: T, onTop: bool): (r: seq<T>)
    ensures |r| == |s| + 1
    ensures onTop ==> r[0] == x && r[1..] == s
    ensures !onTop ==> r[|s|] == x && r[..|s|] == s
  {
    if onTop then [x] + s else s + [x]
  }

  /** `bs[k].disabled = False` when there is a button at k. */
  function Enable(bs: seq<Btn>, k: int): (r: seq<Btn>)
    ensures |r| == |bs|
    ensures forall i :: 0 <= i < |bs| ==> r[i].row == bs[i].row
    ensures forall i :: 0 <= i < |bs| ==> (r[i].disabled <==> bs[i].disabled && i != k)
  {
    if 0 <= k < |bs| then bs[k := Btn(bs[k].row, false)] else bs
  }

  /** A Python list object. The sortable list keeps the very list it is
    * given (`self._items = items`) and inserts into it in place, so whoever
    * else holds it sees the additions. */
  class PyList<T> {
    var elems: seq<T>

    constructor (elems: seq<T>)
      ensures this.elems == elems
    {
      this.elems := elems;
    }
  }

  class SortableList<T> {
    /** Whether an `itemContent` function was given: without one no card
      * and no button is ever created. */
    const hasContent: bool
    const newOnTop: bool
    const activatable: bool

    /** `_items`: a reference to the caller's list, not a copy. */
    var items: PyList<T>
    var cards: seq<Card>
    var bdowns: seq<Btn>
    var bups: seq<Btn>
    var bremoves: seq<Btn>
    var activeindex: int
    var nextrow: int
    var log: seq<Event>

    /** The parallel lists line up, the active index is -1 or a card, and the
      * buttons are flagged as `update_buttons` leaves them. */
    ghost predicate Shape()
      reads this, items
    {
      |bdowns| == |cards| && |bups| == |cards| && |bremoves| == |cards| &&
      (if hasContent then |items.elems| == |cards| else |cards| == 0) &&
      -1 <= activeindex < |cards| &&
      ButtonsFlagged(bdowns, bups)
    }

    /** ... and exactly the active card is raised. */
    ghost predicate Valid()
      reads this, items
    {
      Shape() && RaisedAt(cards, activeindex)
    }

    /** `__init__`: the given list object is kept, no item is active, and
      * every item gets its widgets. */
    constructor (items: PyList<T>, hasContent: bool, newOnTop: bool, activatable: bool)
      ensures Valid()
      ensures this.items == items && this.hasContent == hasContent
      ensures this.newOnTop == newOnTop && this.activatable == activatable
      ensures activeindex == -1 && log == []
      ensures var n := if hasContent then |items.elems| else 0;
              cards == FreshCards(0, n) && bdowns == FreshButtons(0, n, n - 1) &&
              bups == FreshButtons(0, n, 0) && bremoves == FreshButtons(0, n, -1) && nextrow == n
    {
      this.hasContent := hasContent;
      this.newOnTop := newOnTop;
      this.activatable := activatable;
      this.items := items;
      cards, bdowns, bups, bremoves := [], [], [], [];
      activeindex := -1;
      nextrow := 0;
      log := [];
      new;
      AddAll();
    }

    /** The `for index, item in enumerate(self._items)` loop of `__init__` and
      * of the `items` setter, starting from empty widget lists. */
    method AddAll()
      requires cards == [] && bdowns == [] && bups == [] && bremoves == [] && activeindex == -1
      modifies this`cards, this`bdowns, this`bups, this`bremoves, this`nextrow
      ensures Valid()
      ensures var n := if hasContent then |items.elems| else 0;
              cards == FreshCards(old(nextrow), n) && bdowns == FreshButtons(old(nextrow), n, n - 1) &&
              bups == FreshButtons(old(nextrow), n, 0) && bremoves == FreshButtons(old(nextrow), n, -1) &&
              nextrow == old(nextrow) + n
    {
      var r0 := nextrow;
      var len := |items.elems|;
      var n := if hasContent then len else 0;
      var i := 0;
      while i < len
        invariant 0 <= i <= len
        invariant var m := if hasContent then i else 0;
                  cards == FreshCards(r0, m) && bdowns == FreshButtons(r0, m, n - 1) &&
                  bups == FreshButtons(r0, m, 0) && bremoves == FreshButtons(r0, m, -1) && nextrow == r0 + m
      {
        AddWidgets(i == 0, i == len - 1, false);
        i := i + 1;
      }
    }

    /** `additem`: with an `itemContent` function, a card (not raised) and
      * its three buttons, the down one disabled when `islast` and the up one
      * when `isfirst`, put at the front or at the back of their lists. */
    method AddWidgets(isfirst: bool, islast: bool, onTop: bool)
      modifies this`cards, this`bdowns, this`bups, this`bremoves, this`nextrow
      ensures !hasContent ==> cards == old(cards) && bdowns == old(bdowns) && bups == old(bups) &&
                              bremoves == old(bremoves) && nextrow == old(nextrow)
      ensures hasContent && onTop ==>
                cards == [Card(old(nextrow), false)] + old(cards) &&
                bdowns == [Btn(old(nextrow), islast)] + old(bdowns) &&
                bups == [Btn(old(nextrow), isfirst)] + old(bups) &&
                bremoves == [Btn(old(nextrow), false)] + old(bremoves) && nextrow == old(nextrow) + 1
      ensures hasContent && !onTop ==>
                cards == old(cards) + [Card(old(nextrow), false)] &&
                bdowns == old(bdowns) + [Btn(old(nextrow), islast)] &&
                bups == old(bups) + [Btn(old(nextrow), isfirst)] &&
                bremoves == old(bremoves) + [Btn(old(nextrow), false)] && nextrow == old(nextrow) + 1
    {
      if hasContent {
        var r := nextrow;
        nextrow := nextrow + 1;
        if onTop {
          cards, bdowns, bups, bremoves := [Card(r, false)] + cards, [Btn(r, islast)] + bdowns,
                                           [Btn(r, isfirst)] + bups, [Btn(r, false)] + bremoves;
        } else {
          cards, bdowns, bups, bremoves := cards + [Card(r, false)], bdowns + [Btn(r, islast)],
                                           bups + [Btn(r, isfirst)], bremoves + [Btn(r, false)];
        }
      }
    }

    /** The `+` button: `itemNew()` is given as its result (None when there
      * is no `itemNew` or it declines); a new item is added as `doAddItem`
      * adds it and reported with the position it took. */
    method OnAdd(newItem: Option<T>)
      requires Valid()
      modifies this, items
      ensures Valid() && items == old(items)
      ensures newItem.None? ==>
                items.elems == old(items.elems) && cards == old(cards) && bdowns == old(bdowns) &&
                bups == old(bups) && bremoves == old(bremoves) && activeindex == old(activeindex) && log == old(log)
      ensures newItem.Some? ==>
                items.elems == Put(old(items.elems), newItem.value, newOnTop) &&
                activeindex == (if newOnTop && old(activeindex) >= 0 then old(activeindex) + 1 else old(activeindex))
      ensures newItem.Some? && hasContent ==>
                var r := old(nextrow);
                cards == Put(old(cards), Card(r, false), newOnTop) &&
                bremoves == Put(old(bremoves), Btn(r, false), newOnTop) &&
                bdowns == (if newOnTop then [Btn(r, old(cards) == [])] + old(bdowns)
                           else Enable(old(bdowns), |old(bdowns)| - 1) + [Btn(r, true)]) &&
                bups == (if newOnTop then [Btn(r, true)] + Enable(old(bups), 0)
                         else old(bups) + [Btn(r, old(cards) == [])])
      ensures newItem.Some? && !hasContent ==>
                cards == old(cards) && bdowns == old(bdowns) && bups == old(bups) && bremoves == old(bremoves)
      ensures newItem.Some? ==> log == old(log) + [Changed, Added(if newOnTop then 0 else |cards| - 1)]
    {
      if newItem.Some? {
        DoAddItem(newItem.value);
        log := log + [Added(if newOnTop then 0 else |cards| - 1)];
      }
    }

    /** `doAddItem`: the item is inserted into the kept list object. On top,
      * it goes first, the old first up button is enabled, the new row's up
      * button is disabled and a non-negative active index moves one down;
      * otherwise it goes last, the old last down button is enabled and the
      * new row's down button is disabled. The active item stays the same
      * item. */
    method DoAddItem(item: T)
      requires Valid()
      modifies this, items
      ensures Valid() && items == old(items)
      ensures items.elems == Put(old(items.elems), item, newOnTop)
      ensures activeindex == (if newOnTop && old(activeindex) >= 0 then old(activeindex) + 1 else old(activeindex))
      ensures activeindex >= 0 ==> items.elems[activeindex] == old(items.elems)[old(activeindex)]
      ensures hasContent ==>
                var r := old(nextrow);
                cards == Put(old(cards), Card(r, false), newOnTop) &&
                bremoves == Put(old(bremoves), Btn(r, false), newOnTop) &&
                bdowns == (if newOnTop then [Btn(r, old(cards) == [])] + old(bdowns)
                           else Enable(old(bdowns), |old(bdowns)| - 1) + [Btn(r, true)]) &&
                bups == (if newOnTop then [Btn(r, true)] + Enable(old(bups), 0)
                         else old(bups) + [Btn(r, old(cards) == [])]) &&
                nextrow == r + 1
      ensures !hasContent ==>
                cards == old(cards) && bdowns == old(bdowns) && bups == old(bups) && bremoves == old(bremoves)
      ensures log == old(log) + [Changed]
    {
      if newOnTop {
        bups := Enable(bups, 0);
        items.elems := [item] + items.elems;
        if activeindex >= 0 {
          activeindex := activeindex + 1;
        }
        AddWidgets(true, |cards| == 0, true);
      } else {
        bdowns := Enable(bdowns, |bdowns| - 1);
        items.elems := items.elems + [item];
        AddWidgets(|cards| == 0, true, false);
      }
      log := log + [Changed];
    }

    /** `update_buttons`. */
    method UpdateButtons()
      modifies this`bdowns, this`bups
      ensures bdowns == DisableOnly(old(bdowns), |old(bdowns)| - 1)
      ensures bups == DisableOnly(old(bups), 0)
    {
      for i := 0 to |bdowns|
        invariant |bdowns| == |old(bdowns)|
        invariant forall k :: 0 <= k < i ==> bdowns[k] == Btn(old(bdowns)[k].row, false)
        invariant forall k :: i <= k < |bdowns| ==> bdowns[k] == old(bdowns)[k]
        invariant bups == old(bups)
      {
        bdowns := bdowns[i := Btn(bdowns[i].row, false)];
      }
      if |bdowns| > 0 {
        bdowns := bdowns[|bdowns| - 1 := Btn(bdowns[|bdowns| - 1].row, true)];
      }
      assert bdowns == DisableOnly(old(bdowns), |old(bdowns)| - 1);
      ghost var downs := bdowns;
      for i := 0 to |bups|
        invariant |bups| == |old(bups)|
        invariant forall k :: 0 <= k < i ==> bups[k] == Btn(old(bups)[k].row, false)
        invariant forall k :: i <= k < |bups| ==> bups[k] == old(bups)[k]
        invariant bdowns == downs
      {
        bups := bups[i := Btn(bups[i].row, false)];
      }
      if |bups| > 0 {
        bups := bups[0 := Btn(bups[0].row, true)];
      }
    }

    /** The `active` setter: an index outside the cards changes nothing;
      * otherwise the previously active card is lowered and reported, and the
      * new one raised and reported. */
    method SetActive(index: int)
      requires -1 <= activeindex < |cards|
      modifies this`cards, this`activeindex, this`log
      ensures !(0 <= index < |old(cards)|) ==>
                cards == old(cards) && activeindex == old(activeindex) && log == old(log)
      ensures 0 <= index < |old(cards)| ==>
                var lowered := if old(activeindex) >= 0 then SetRaised(old(cards), old(activeindex), false) else old(cards);
                cards == SetRaised(lowered, index, true) && activeindex == index &&
                log == old(log) + (if old(activeindex) >= 0 then [Deactivated(old(activeindex))] else []) + [Activated(index)]
    {
      if 0 <= index < |cards| {
        if activeindex >= 0 {
          cards := SetRaised(cards, activeindex, false);
          log := log + [Deactivated(activeindex)];
        }
        activeindex := index;
        cards := SetRaised(cards, activeindex, true);
        log := log + [Activated(activeindex)];
      }
    }

    /** The `active` setter on a valid list keeps it valid: the raised card
      * is the active one, every card keeps its row, and the change of
      * active card is reported as `SetActive` states. */
    method Activate(index: int)
      requires Valid()
      modifies this`cards, this`activeindex, this`log
      ensures Valid()
      ensures activeindex == (if 0 <= index < |cards| then index else old(activeindex))
      ensures forall k :: 0 <= k < |cards| ==> cards[k].row == old(cards)[k].row
      ensures !(0 <= index < |old(cards)|) ==> cards == old(cards) && log == old(log)
      ensures 0 <= index < |old(cards)| ==>
                log == old(log) + (if old(activeindex) >= 0 then [Deactivated(old(activeindex))] else []) + [Activated(index)]
    {
      SetActive(index);
    }

    /** A click on a card activates it when the list is activatable, and
      * changes nothing otherwise. */
    method OnClickCard(index: int)
      requires Valid() && 0 <= index < |cards|
      modifies this`cards, this`activeindex, this`log
      ensures Valid()
      ensures activeindex == (if activatable then index else old(activeindex))
      ensures !activatable ==> cards == old(cards) && log == old(log)
      ensures activatable ==>
                (forall k :: 0 <= k < |cards| ==> cards[k].row == old(cards)[k].row) &&
                log == old(log) + (if old(activeindex) >= 0 then [Deactivated(old(activeindex))] else []) + [Activated(index)]
    {
      if activatable {
        Activate(index);
      }
    }

    /** The tuple swaps shared by `ondown` and `onup`: rows a and a + 1
      * trade places in every parallel list, the buttons are re-flagged, and
      * the raised card moves with its row (the active index is not yet
      * updated). */
    method SwapRows(a: int, b: int)
      requires Valid() && 0 <= a && b == a + 1 && b < |cards|
      modifies this`cards, this`bdowns, this`bups, this`bremoves, items`elems
      ensures Shape() && RaisedAt(cards, Moved(activeindex, a, b))
      ensures items.elems == Swap(old(items.elems), a, b) && cards == Swap(old(cards), a, b)
      ensures bdowns == DisableOnly(Swap(old(bdowns), a, b), |bdowns| - 1)
      ensures bups == DisableOnly(Swap(old(bups), a, b), 0)
      ensures bremoves == Swap(old(bremoves), a, b)
    {
      SwapKeepsRaised(cards, a, b, activeindex);
      items.elems := Swap(items.elems, a, b);
      cards, bdowns, bups, bremoves := Swap(cards, a, b), Swap(bdowns, a, b), Swap(bups, a, b), Swap(bremoves, a, b);
      UpdateButtons();
    }

    /** `ondown` for the enabled down button at `index` (the last one is
      * disabled, so the click always has a successor to swap with): the
      * row swaps with the next one in every parallel list, the buttons are
      * re-flagged, and the active marker follows its item. */
    method OnDown(index: int)
      requires Valid() && 0 <= index < |bdowns| && !bdowns[index].disabled
      modifies this, items
      ensures Valid() && items == old(items) && index + 1 < |cards|
      ensures hasContent ==> items.elems == Swap(old(items.elems), index, index + 1)
      ensures cards == Swap(old(cards), index, index + 1)
      ensures bdowns == DisableOnly(Swap(old(bdowns), index, index + 1), |bdowns| - 1)
      ensures bups == DisableOnly(Swap(old(bups), index, index + 1), 0)
      ensures bremoves == Swap(old(bremoves), index, index + 1)
      ensures activeindex == (if old(activeindex) == index then index + 1
                              else if old(activeindex) == index + 1 then index
                              else old(activeindex))
      ensures activeindex >= 0 ==> items.elems[activeindex] == old(items.elems)[old(activeindex)]
      ensures log == old(log) + [Changed, MovedDown(index)] +
                     (if old(activeindex) == index then [Deactivated(index), Activated(index + 1)]
                      else if old(activeindex) == index + 1 then [Deactivated(index + 1), Activated(index)]
                      else [])
    {
      var wasactive := index == activeindex;
      var changewithactive := index + 1 == activeindex;
      SwapRows(index, index + 1);
      log := log + [Changed, MovedDown(index)];
      if wasactive {
        ReraiseKeeps(cards, activeindex, index + 1);
        SetActive(index + 1);
      } else if changewithactive {
        ReraiseKeeps(cards, activeindex, index);
        SetActive(index);
      }
    }

    /** `onup` for the enabled up button at `index` (the first one is
      * disabled, so the click always has a predecessor to swap with). */
    method OnUp(index: int)
      requires Valid() && 0 <= index < |bups| && !bups[index].disabled
      modifies this, items
      ensures Valid() && items == old(items) && 1 <= index
      ensures hasContent ==> items.elems == Swap(old(items.elems), index - 1, index)
      ensures cards == Swap(old(cards), index - 1, index)
      ensures bdowns == DisableOnly(Swap(old(bdowns), index - 1, index), |bdowns| - 1)
      ensures bups == DisableOnly(Swap(old(bups), index - 1, index), 0)
      ensures bremoves == Swap(old(bremoves), index - 1, index)
      ensures activeindex == (if old(activeindex) == index then index - 1
                              else if old(activeindex) == index - 1 then index
                              else old(activeindex))
      ensures activeindex >= 0 ==> items.elems[activeindex] == old(items.elems)[old(activeindex)]
      ensures log == old(log) + [Changed, MovedUp(index)] +
                     (if old(activeindex) == index then [Deactivated(index), Activated(index - 1)]
                      else if old(activeindex) == index - 1 then [Deactivated(index - 1), Activated(index)]
                      else [])
    {
      var wasactive := index == activeindex;
      var changewithactive := index - 1 == activeindex;
      SwapRows(index - 1, index);
      log := log + [Changed, MovedUp(index)];
      if wasactive {
        ReraiseKeeps(cards, activeindex, index - 1);
        SetActive(index - 1);
      } else if changewithactive {
        ReraiseKeeps(cards, activeindex, index);
        SetActive(index);
      }
    }

    /** `ondel` for the remove button at `index`: the row leaves every
      * parallel list; the active index becomes -1 if it was that row (which
      * is reported), moves up by one if it was below it, and otherwise
      * stays. */
    method OnDel(index: int)
      requires Valid() && 0 <= index < |bremoves|
      modifies this, items
      ensures Valid() && items == old(items)
      ensures items.elems == RemoveAt(old(items.elems), index) && cards == RemoveAt(old(cards), index)
      ensures bdowns == DisableOnly(RemoveAt(old(bdowns), index), |bdowns| - 1)
      ensures bups == DisableOnly(RemoveAt(old(bups), index), 0)
      ensures bremoves == RemoveAt(old(bremoves), index)
      ensures activeindex == (if old(activeindex) == index then -1
                              else if index < old(activeindex) then old(activeindex) - 1
                              else old(activeindex))
      ensures activeindex >= 0 ==> items.elems[activeindex] == old(items.elems)[old(activeindex)]
      ensures log == old(log) + [Removing(index)] +
                     (if old(activeindex) == index then [Deactivated(index)] else []) + [Changed, Removed(index)]
    {
      RemoveKeepsRaised(cards, index, activeindex);
      log := log + [Removing(index)];
      if index == activeindex {
        log := log + [Deactivated(activeindex)];
        activeindex := -1;
      } else if index <= activeindex {
        activeindex := activeindex - 1;
      }
      RemoveRow(index);
      log := log + [Changed, Removed(index)];
    }

    /** The `del` statements of `ondel` and the re-flagging after them. */
    method RemoveRow(index: int)
      requires 0 <= index < |cards| && |items.elems| == |cards|
      requires |bdowns| == |cards| && |bups| == |cards| && |bremoves| == |cards|
      modifies this`cards, this`bdowns, this`bups, this`bremoves, items`elems
      ensures items.elems == RemoveAt(old(items.elems), index) && cards == RemoveAt(old(cards), index)
      ensures bdowns == DisableOnly(RemoveAt(old(bdowns), index), |bdowns| - 1)
      ensures bups == DisableOnly(RemoveAt(old(bups), index), 0)
      ensures bremoves == RemoveAt(old(bremoves), index)
    {
      items.elems := RemoveAt(items.elems, index);
      cards, bdowns, bups, bremoves := RemoveAt(cards, index), RemoveAt(bdowns, index),
                                       RemoveAt(bups, index), RemoveAt(bremoves, index);
      UpdateButtons();
    }

    /** The `items` setter: the given list object is kept, nothing is
      * active, and the widgets are rebuilt. */
    method SetItems(newItems: PyList<T>)
      requires Valid()
      modifies this
      ensures Valid()
      ensures items == newItems && activeindex == -1
      ensures var n := if hasContent then |newItems.elems| else 0;
              cards == FreshCards(old(nextrow), n) && bdowns == FreshButtons(old(nextrow), n, n - 1) &&
              bups == FreshButtons(old(nextrow), n, 0) && bremoves == FreshButtons(old(nextrow), n, -1)
      ensures log == old(log) + [Changed]
    {
      items := newItems;
      cards, bdowns, bups, bremoves := [], [], [], [];
      activeindex := -1;
      AddAll();
      log := log + [Changed];
    }
  }

  /** As written, `items=[]` is one list object shared by every sortable
    * list built without items: an item added to the first shows up in a
    * second one built afterwards, which even gets a card for it. Returned:
    * the second list's items and its number of cards. */
  method SharedDefaultExample() returns (secondItems: seq<int>, secondCards: nat)
    ensures secondItems == [7] && secondCards == 1
  {
    var shared := new PyList<int>([]);
    var first := new SortableList<int>(shared, true, false, false);
    first.DoAddItem(7);
    var second := new SortableList<int>(shared, true, false, false);
    secondItems, secondCards := second.items.elems, |second.cards|;
  }

  /** The evidently intended default (`items=None`, then a new list): a
    * list built without items starts empty, with a list object of its own. */
  method NewWithoutItems<T>(hasContent: bool, newOnTop: bool, activatable: bool) returns (l: SortableList<T>)
    ensures fresh(l) && fresh(l.items) && l.Valid()
    ensures l.items.elems == [] && l.cards == [] && l.activeindex == -1
  {
    var own := new PyList<T>([]);
    l := new SortableList<T>(own, hasContent, newOnTop, activatable);
  }

  /** With the intended default, adding to the first list leaves the
    * second one empty. */
  method FreshDefaultExample() returns (secondItems: seq<int>, secondCards: nat)
    ensures secondItems == [] && secondCards == 0
  {
    var first := NewWithoutItems<int>(true, false, false);
    first.DoAddItem(7);
    var second := NewWithoutItems<int>(true, false, false);
    secondItems, secondCards := second.items.elems, |second.cards|;
  }

  /** Moving a row down and then moving it back up restores the order. */
  lemma DownThenUpRestores<T>(s: seq<T>, i: int)
    requires 0 <= i && i + 1 < |s|
    ensures Swap(Swap(s, i, i + 1), i, i + 1) == s
  {
  }
}
