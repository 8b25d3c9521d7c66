/** Fitting a self-describing prompt into a character budget: the drop loop over the
    payload's lists and the fixed point of a prompt that states its own length. */
module PromptBudget {
  import opened Ordering

  // ----- decimal digits -----------------------------------------------------------------

  function Digits(n: nat): (d: nat)
    ensures d >= 1
  {
    if n < 10 then 1 else 1 + Digits(n / 10)
  }

  function Pow10(k: nat): (p: nat)
    ensures p > k
  {
    if k == 0 then 1 else 10 * Pow10(k - 1)
  }

  /** `n` has `d` digits exactly when it lies between consecutive powers of ten. */
  lemma {:induction false} DigitsMeaning(n: nat, d: nat)
    requires d >= 1
    ensures Digits(n) == d <==> (d == 1 || Pow10(d - 1) <= n) && n < Pow10(d)
    decreases d
  {
    if d == 1 {
      assert Pow10(1) == 10 * Pow10(0);
    } else if n >= 10 {
      DigitsMeaning(n / 10, d - 1);
      assert Pow10(d) == 10 * Pow10(d - 1) && Pow10(d - 1) == 10 * Pow10(d - 2);
    } else {
      assert Pow10(d - 1) == 10 * Pow10(d - 2);
    }
  }

  lemma {:induction false} DigitsMonotone(a: nat, b: nat)
    requires a <= b
    ensures Digits(a) <= Digits(b)
    ensures Digits(b) <= Digits(a) + (b - a)
    decreases b
  {
    if b >= 10 {
      DigitsMonotone(if a >= 10 then a / 10 else 0, b / 10);
    }
  }

  // ----- the payload --------------------------------------------------------------------

  /** One list element, by its JSON text. */
  datatype Item = Item(text: string)

  const LIST_COUNT: nat := 7

  /** Position in the drop order: episode summaries, recent events, lessons, own units,
      visible enemies, own structures, spatial lines. */
  predicate KeepsOne(slot: nat) { 3 <= slot <= 5 }

  /** The shared lists and the statistics that count what left them. */
  datatype Sheet = Sheet(lists: seq<seq<Item>>, dropped: seq<nat>)

  ghost predicate ValidSheet(sheet: Sheet) {
    && |sheet.lists| == LIST_COUNT && |sheet.dropped| == LIST_COUNT
    && forall i, j :: 0 <= i < |sheet.lists| && 0 <= j < |sheet.lists[i]| ==> |sheet.lists[i][j].text| >= 1
  }

  /** Characters between the brackets of a JSON list. */
  function ListChars(items: seq<Item>): nat {
    if items == [] then 0
    else if |items| == 1 then |items[0].text|
    else |items[0].text| + 2 + ListChars(items[1..])
  }

  function ListsChars(lists: seq<seq<Item>>): nat {
    if lists == [] then 0 else ListChars(lists[0]) + ListsChars(lists[1..])
  }

  function CountersChars(counters: seq<nat>): nat {
    if counters == [] then 0 else Digits(counters[0]) + CountersChars(counters[1..])
  }

  /** Length of the whole prompt; `fixed` covers the system prompt, every key and bracket,
      and all values the loop never touches. */
  function PromptChars(fixed: nat, sheet: Sheet, compacted: bool, finalChars: nat): nat {
    fixed + ListsChars(sheet.lists) + CountersChars(sheet.dropped)
    + (if compacted then 4 else 5) + Digits(finalChars)
  }

  function Minimum(slot: nat, items: seq<Item>): nat {
    if KeepsOne(slot) && items != [] then 1 else 0
  }

  function DropOne(slot: nat, items: seq<Item>): seq<Item>
    requires items != []
  {
    if KeepsOne(slot) then items[..|items| - 1] else items[1..]
  }

  predicate Droppable(sheet: Sheet, slot: nat)
    requires slot < |sheet.lists|
  {
    |sheet.lists[slot]| > Minimum(slot, sheet.lists[slot])
  }

  function DropAt(sheet: Sheet, slot: nat): Sheet
    requires slot < |sheet.lists| == |sheet.dropped| && Droppable(sheet, slot)
  {
    Sheet(sheet.lists[slot := DropOne(slot, sheet.lists[slot])],
          sheet.dropped[slot := sheet.dropped[slot] + 1])
  }

  /** The list the loop would shorten next, searching from `slot`. */
  function NextSlot(sheet: Sheet, slot: nat): Option<nat>
    requires slot <= |sheet.lists|
    decreases |sheet.lists| - slot
  {
    if slot == |sheet.lists| then None
    else if Droppable(sheet, slot) then Some(slot)
    else NextSlot(sheet, slot + 1)
  }

  lemma {:induction false} NextSlotMeaning(sheet: Sheet, slot: nat)
    requires slot <= |sheet.lists|
    ensures match NextSlot(sheet, slot)
            case None => forall i :: slot <= i < |sheet.lists| ==> !Droppable(sheet, i)
            case Some(n) => slot <= n < |sheet.lists| && Droppable(sheet, n)
                            && forall i :: slot <= i < n ==> !Droppable(sheet, i)
    decreases |sheet.lists| - slot
  {
    if slot < |sheet.lists| && !Droppable(sheet, slot) {
      NextSlotMeaning(sheet, slot + 1);
    }
  }

  function Spare(slot: nat, items: seq<Item>): nat {
    if KeepsOne(slot) && items != [] then |items| - 1 else |items|
  }

  /** Everything that could still be dropped, from `slot` on. */
  function SpareFrom(lists: seq<seq<Item>>, slot: nat): nat
    requires slot <= |lists|
    decreases |lists| - slot
  {
    if slot == |lists| then 0 else Spare(slot, lists[slot]) + SpareFrom(lists, slot + 1)
  }

  lemma {:induction false} SpareMeaning(sheet: Sheet, slot: nat)
    requires slot <= |sheet.lists| == |sheet.dropped|
    ensures match NextSlot(sheet, slot)
            case None => SpareFrom(sheet.lists, slot) == 0
            case Some(n) => slot <= n < |sheet.lists| && Droppable(sheet, n)
                            && SpareFrom(DropAt(sheet, n).lists, slot) == SpareFrom(sheet.lists, slot) - 1
    decreases |sheet.lists| - slot
  {
    if slot < |sheet.lists| {
      if Droppable(sheet, slot) {
        SpareElsewhere(sheet.lists, DropAt(sheet, slot).lists, slot + 1);
      } else {
        SpareMeaning(sheet, slot + 1);
      }
    }
  }

  lemma {:induction false} SpareElsewhere(a: seq<seq<Item>>, b: seq<seq<Item>>, slot: nat)
    requires slot <= |a| == |b| && forall i :: slot <= i < |a| ==> a[i] == b[i]
    ensures SpareFrom(a, slot) == SpareFrom(b, slot)
    decreases |a| - slot
  {
    if slot < |a| {
      SpareElsewhere(a, b, slot + 1);
    }
  }

  /** `steps` rounds of the drop loop. */
  function Drop(sheet: Sheet, steps: nat): Sheet
    requires |sheet.lists| == |sheet.dropped|
    decreases steps
  {
    if steps == 0 then sheet
    else
      match NextSlot(sheet, 0)
      case None => sheet
      case Some(slot) => NextSlotMeaning(sheet, 0); Drop(DropAt(sheet, slot), steps - 1)
  }

  /** The sheet nothing can be dropped from any more. */
  function Minimised(sheet: Sheet): Sheet
    requires |sheet.lists| == |sheet.dropped|
  {
    Drop(sheet, SpareFrom(sheet.lists, 0))
  }

  // ----- what dropping does to the length -----------------------------------------------

  lemma {:induction false} ListCharsTail(items: seq<Item>)
    requires items != []
    ensures ListChars(items[1..]) + |items[0].text| <= ListChars(items)
    ensures ListChars(items[..|items| - 1]) + |items[|items| - 1].text| <= ListChars(items)
  {
    if |items| > 1 {
      ListCharsTail(items[1..]);
      assert items[..|items| - 1][1..] == items[1..][..|items| - 2];
    }
  }

  lemma {:induction false} ListsCharsUpdate(lists: seq<seq<Item>>, slot: nat, items: seq<Item>)
    requires slot < |lists|
    ensures ListsChars(lists[slot := items]) == ListsChars(lists) - ListChars(lists[slot]) + ListChars(items)
  {
    if slot > 0 {
      ListsCharsUpdate(lists[1..], slot - 1, items);
      assert lists[slot := items][1..] == lists[1..][slot - 1 := items];
    }
  }

  lemma {:induction false} CountersCharsUpdate(counters: seq<nat>, slot: nat, value: nat)
    requires slot < |counters|
    ensures CountersChars(counters[slot := value])
         == CountersChars(counters) - Digits(counters[slot]) + Digits(value)
  {
    if slot > 0 {
      CountersCharsUpdate(counters[1..], slot - 1, value);
      assert counters[slot := value][1..] == counters[1..][slot - 1 := value];
    }
  }

  /** A drop never lengthens the prompt, and shortens it whenever the element is at least
      two characters long, even when its counter gains a digit. */
  lemma DropShrinks(fixed: nat, sheet: Sheet, slot: nat, compacted: bool, finalChars: nat)
    requires ValidSheet(sheet) && slot < LIST_COUNT && Droppable(sheet, slot)
    ensures ValidSheet(DropAt(sheet, slot))
    ensures PromptChars(fixed, DropAt(sheet, slot), compacted, finalChars)
         <= PromptChars(fixed, sheet, compacted, finalChars)
    ensures (forall j :: 0 <= j < |sheet.lists[slot]| ==> |sheet.lists[slot][j].text| >= 2) ==>
      PromptChars(fixed, DropAt(sheet, slot), compacted, finalChars)
      < PromptChars(fixed, sheet, compacted, finalChars)
  {
    var items := sheet.lists[slot];
    ListCharsTail(items);
    ListsCharsUpdate(sheet.lists, slot, DropOne(slot, items));
    CountersCharsUpdate(sheet.dropped, slot, sheet.dropped[slot] + 1);
    DigitsMonotone(sheet.dropped[slot], sheet.dropped[slot] + 1);
    ValidAfterDrop(sheet, slot);
  }

  lemma ValidAfterDrop(sheet: Sheet, slot: nat)
    requires ValidSheet(sheet) && slot < LIST_COUNT && Droppable(sheet, slot)
    ensures ValidSheet(DropAt(sheet, slot))
  {
    var items := sheet.lists[slot];
    var after := DropAt(sheet, slot);
    forall i, j | 0 <= i < |after.lists| && 0 <= j < |after.lists[i]|
      ensures |after.lists[i][j].text| >= 1
    {
      if i == slot {
        assert after.lists[i][j] == if KeepsOne(slot) then items[j] else items[j + 1];
      } else {
        assert after.lists[i] == sheet.lists[i];
      }
    }
  }

  lemma {:induction false} DroppingNeverLengthens(fixed: nat, sheet: Sheet, steps: nat, compacted: bool,
                                                  finalChars: nat)
    requires ValidSheet(sheet)
    ensures ValidSheet(Drop(sheet, steps))
    ensures PromptChars(fixed, Drop(sheet, steps), compacted, finalChars)
         <= PromptChars(fixed, sheet, compacted, finalChars)
    decreases steps
  {
    NextSlotMeaning(sheet, 0);
    if steps > 0 && NextSlot(sheet, 0).Some? {
      DropShrinks(fixed, sheet, NextSlot(sheet, 0).value, compacted, finalChars);
      DroppingNeverLengthens(fixed, DropAt(sheet, NextSlot(sheet, 0).value), steps - 1, compacted, finalChars);
    }
  }

  // ----- closed form of a partly dropped sheet ------------------------------------------

  /** One more round at the end. */
  lemma {:induction false} DropSnoc(sheet: Sheet, steps: nat)
    requires ValidSheet(sheet)
    ensures var t := Drop(sheet, steps);
      && ValidSheet(t)
      && match NextSlot(t, 0)
         case None => Drop(sheet, steps + 1) == t
         case Some(n) => n < LIST_COUNT && Droppable(t, n) && Drop(sheet, steps + 1) == DropAt(t, n)
    decreases steps
  {
    NextSlotMeaning(sheet, 0);
    if NextSlot(sheet, 0).Some? {
      var next := DropAt(sheet, NextSlot(sheet, 0).value);
      ValidAfterDrop(sheet, NextSlot(sheet, 0).value);
      if steps > 0 {
        DropSnoc(next, steps - 1);
      } else {
        assert Drop(sheet, 1) == Drop(next, 0);
      }
    }
  }

  lemma {:induction false} SpareAfterDrop(sheet: Sheet, steps: nat)
    requires ValidSheet(sheet) && steps <= SpareFrom(sheet.lists, 0)
    ensures ValidSheet(Drop(sheet, steps))
    ensures SpareFrom(Drop(sheet, steps).lists, 0) == SpareFrom(sheet.lists, 0) - steps
  {
    if steps > 0 {
      SpareAfterDrop(sheet, steps - 1);
      DropSnoc(sheet, steps - 1);
      SpareMeaning(Drop(sheet, steps - 1), 0);
    }
  }

  /** `t` is what `s` becomes by dropping, list by list, a number of elements that its
      counters report: histories lose their oldest, unit lists their last but never the
      first, and a list is touched only once every earlier one is at its minimum. */
  ghost predicate DroppedInOrder(s: Sheet, t: Sheet) {
    && |s.lists| == |t.lists| == |s.dropped| == |t.dropped| == LIST_COUNT
    && (forall i :: 0 <= i < LIST_COUNT ==> 0 <= t.dropped[i] - s.dropped[i] <= Spare(i, s.lists[i]))
    && (forall i :: 0 <= i < LIST_COUNT ==> t.lists[i] == Remaining(s, t, i))
    && (forall i, j :: 0 <= i < j < LIST_COUNT && t.dropped[j] > s.dropped[j] ==>
          t.dropped[i] - s.dropped[i] == Spare(i, s.lists[i]))
  }

  ghost function Remaining(s: Sheet, t: Sheet, i: nat): seq<Item>
    requires |s.lists| == |s.dropped| == |t.dropped| == LIST_COUNT && i < LIST_COUNT
    requires 0 <= t.dropped[i] - s.dropped[i] <= Spare(i, s.lists[i])
  {
    After(i, s.lists[i], t.dropped[i] - s.dropped[i])
  }

  lemma DroppedInOrderStep(s: Sheet, t: Sheet, n: nat)
    requires DroppedInOrder(s, t) && NextSlot(t, 0) == Some(n)
    requires n < LIST_COUNT && Droppable(t, n)
    ensures DroppedInOrder(s, DropAt(t, n))
  {
    var u := DropAt(t, n);
    forall i | 0 <= i < LIST_COUNT
      ensures 0 <= u.dropped[i] - s.dropped[i] <= Spare(i, s.lists[i])
      ensures u.lists[i] == Remaining(s, u, i)
    {
      DropAtRemains(s, t, n, i);
    }
    forall i, j | 0 <= i < j < LIST_COUNT && u.dropped[j] > s.dropped[j]
      ensures u.dropped[i] - s.dropped[i] == Spare(i, s.lists[i])
    {
      EarlierAreSpent(s, t, n, i, j);
    }
  }

  /** A list without its first or last `gone` elements. */
  function After(slot: nat, items: seq<Item>, gone: nat): seq<Item>
    requires gone <= |items|
  {
    if KeepsOne(slot) then items[..|items| - gone] else items[gone..]
  }

  lemma AfterOneMore(slot: nat, items: seq<Item>, gone: nat)
    requires gone < |items|
    ensures DropOne(slot, After(slot, items, gone)) == After(slot, items, gone + 1)
  {
  }

  lemma DropAtRemains(s: Sheet, t: Sheet, n: nat, i: nat)
    requires DroppedInOrder(s, t) && n < LIST_COUNT && Droppable(t, n) && i < LIST_COUNT
    ensures 0 <= DropAt(t, n).dropped[i] - s.dropped[i] <= Spare(i, s.lists[i])
    ensures |DropAt(t, n).dropped| == LIST_COUNT && DropAt(t, n).lists[i] == Remaining(s, DropAt(t, n), i)
  {
    var gone := t.dropped[i] - s.dropped[i];
    assert t.lists[i] == After(i, s.lists[i], gone);
    if i == n {
      AfterOneMore(i, s.lists[i], gone);
      assert DropAt(t, n).dropped[i] == t.dropped[i] + 1;
    } else {
      assert DropAt(t, n).dropped[i] == t.dropped[i] && DropAt(t, n).lists[i] == t.lists[i];
    }
  }

  lemma EarlierAreSpent(s: Sheet, t: Sheet, n: nat, i: nat, j: nat)
    requires DroppedInOrder(s, t) && NextSlot(t, 0) == Some(n) && n < LIST_COUNT && Droppable(t, n)
    requires i < j < LIST_COUNT && DropAt(t, n).dropped[j] > s.dropped[j]
    ensures DropAt(t, n).dropped[i] - s.dropped[i] == Spare(i, s.lists[i])
  {
    NextSlotMeaning(t, 0);
    assert t.lists[i] == Remaining(s, t, i);
    if j == n {
      assert !Droppable(t, i);
    }
  }

  lemma {:induction false} DropIsInOrder(sheet: Sheet, steps: nat)
    requires ValidSheet(sheet)
    ensures DroppedInOrder(sheet, Drop(sheet, steps))
  {
    if steps > 0 {
      DropIsInOrder(sheet, steps - 1);
      DropSnoc(sheet, steps - 1);
      var t := Drop(sheet, steps - 1);
      if NextSlot(t, 0).Some? {
        DroppedInOrderStep(sheet, t, NextSlot(t, 0).value);
      }
    }
  }

  /** Order and counters pin the sheet down: for a given number of dropped elements there
      is only one way to have dropped them. */
  lemma InOrderIsUnique(s: Sheet, t: Sheet, u: Sheet)
    requires DroppedInOrder(s, t) && DroppedInOrder(s, u)
    requires SpareFrom(t.lists, 0) == SpareFrom(u.lists, 0)
    ensures t == u
  {
    if t.dropped != u.dropped {
      var i :| 0 <= i < LIST_COUNT && t.dropped[i] != u.dropped[i];
      if t.dropped[i] < u.dropped[i] {
        LessDropped(s, t, u, i);
      } else {
        LessDropped(s, u, t, i);
      }
    }
  }

  /** If `u` dropped more than `t` somewhere, it dropped at least as much everywhere. */
  lemma LessDropped(s: Sheet, t: Sheet, u: Sheet, i: nat)
    requires DroppedInOrder(s, t) && DroppedInOrder(s, u)
    requires i < LIST_COUNT && t.dropped[i] < u.dropped[i]
    ensures SpareFrom(u.lists, 0) < SpareFrom(t.lists, 0)
  {
    forall j | 0 <= j < LIST_COUNT
      ensures Spare(j, u.lists[j]) <= Spare(j, t.lists[j])
      ensures j == i ==> Spare(j, u.lists[j]) < Spare(j, t.lists[j])
    {
      LessDroppedAt(s, t, u, i, j);
    }
    SpareCompare(u.lists, t.lists, 0, i);
  }

  lemma SpareAfter(slot: nat, items: seq<Item>, gone: nat)
    requires gone <= Spare(slot, items)
    ensures Spare(slot, After(slot, items, gone)) == Spare(slot, items) - gone
  {
  }

  lemma DroppedNoMore(s: Sheet, t: Sheet, u: Sheet, i: nat, j: nat)
    requires DroppedInOrder(s, t) && DroppedInOrder(s, u)
    requires i < LIST_COUNT && t.dropped[i] < u.dropped[i] && j < LIST_COUNT
    ensures t.dropped[j] <= u.dropped[j]
  {
  }

  lemma LessDroppedAt(s: Sheet, t: Sheet, u: Sheet, i: nat, j: nat)
    requires DroppedInOrder(s, t) && DroppedInOrder(s, u)
    requires i < LIST_COUNT && t.dropped[i] < u.dropped[i] && j < LIST_COUNT
    ensures t.dropped[j] <= u.dropped[j]
    ensures Spare(j, t.lists[j]) - Spare(j, u.lists[j]) == u.dropped[j] - t.dropped[j]
  {
    DroppedNoMore(s, t, u, i, j);
    SpareAfter(j, s.lists[j], t.dropped[j] - s.dropped[j]);
    SpareAfter(j, s.lists[j], u.dropped[j] - s.dropped[j]);
    assert t.lists[j] == Remaining(s, t, j) && u.lists[j] == Remaining(s, u, j);
  }

  lemma {:induction false} SpareCompare(a: seq<seq<Item>>, b: seq<seq<Item>>, slot: nat, strict: nat)
    requires slot <= |a| == |b|
    requires forall i :: slot <= i < |a| ==> Spare(i, a[i]) <= Spare(i, b[i])
    ensures SpareFrom(a, slot) <= SpareFrom(b, slot)
    ensures slot <= strict < |a| && Spare(strict, a[strict]) < Spare(strict, b[strict]) ==>
      SpareFrom(a, slot) < SpareFrom(b, slot)
    decreases |a| - slot
  {
    if slot < |a| {
      SpareCompare(a, b, slot + 1, strict);
    }
  }

  // ----- a prompt that states its own length --------------------------------------------

  /** Renders of a prompt of `body` characters plus its own length, starting from 0. */
  function Render(body: nat, renders: nat): nat {
    if renders == 0 then 0 else body + Digits(Render(body, renders - 1))
  }

  /** Four renders always reach a prompt that states its exact length. */
  lemma FixedPointWithinFour(body: nat)
    ensures Render(body, 4) == Render(body, 3)
  {
    var first := body + 1;
    var d1 := Digits(first);
    var second := body + d1;
    var d2 := Digits(second);
    var third := body + d2;
    assert Digits(0) == 1;
    assert Render(body, 1) == body + Digits(Render(body, 0)) == first;
    assert Render(body, 2) == second;
    assert Render(body, 3) == third;
    DigitsMonotone(first, second);
    DigitsMonotone(second, third);
    DigitsMeaning(first, d1);
    assert Pow10(d1 + 1) == 10 * Pow10(d1);
    DigitsMeaning(third, Digits(third));
    if d2 > d1 {
      AtMostOneMore(first, second, d1);
      AtMostOneMore(first, third, d1);
    }
  }

  /** Adding less than the number of digits can cost one digit at most. */
  lemma AtMostOneMore(n: nat, m: nat, d: nat)
    requires Digits(n) == d && n <= m <= n + d
    ensures Digits(m) <= d + 1
  {
    DigitsMeaning(n, d);
    assert Pow10(d + 1) == 10 * Pow10(d);
    var k := Digits(m);
    DigitsMeaning(m, k);
    if k > d + 1 {
      Pow10Monotone(d + 1, k - 1);
    }
  }

  lemma {:induction false} Pow10Monotone(a: nat, b: nat)
    requires a <= b
    ensures Pow10(a) <= Pow10(b)
    decreases b - a
  {
    if a < b {
      Pow10Monotone(a, b - 1);
      assert Pow10(b) == 10 * Pow10(b - 1);
    }
  }

  /** Rendering never overshoots a bound that the body respects with that bound written in. */
  lemma {:induction false} RenderStaysBelow(body: nat, bound: nat, renders: nat)
    requires body + Digits(bound) <= bound
    ensures Render(body, renders) <= bound
  {
    if renders > 0 {
      RenderStaysBelow(body, bound, renders - 1);
      DigitsMonotone(Render(body, renders - 1), bound);
    }
  }

  // ----- what is left, list by list -----------------------------------------------------

  /** Summaries, events, lessons (0 to 2) and spatial lines (6) keep their newest entries;
      own units, enemies and structures (3 to 5) their first ones, and always one; each
      counter grows by what its list lost; and a list loses nothing before every earlier
      one is down to nothing, or to that one. */
  ghost predicate Trimmed(before: Sheet, after: Sheet) {
    && |before.lists| == |after.lists| == |before.dropped| == |after.dropped| == 7
    && (forall i :: 0 <= i < 7 ==>
          |before.lists[i]| + before.dropped[i] == |after.lists[i]| + after.dropped[i])
    && KeepsNewest(before, after, 0) && KeepsNewest(before, after, 1) && KeepsNewest(before, after, 2)
    && KeepsFirst(before, after, 3) && KeepsFirst(before, after, 4) && KeepsFirst(before, after, 5)
    && KeepsNewest(before, after, 6)
    && (forall i, j :: 0 <= i < j < 7 && |after.lists[j]| < |before.lists[j]| ==> Spent(after, i))
  }

  ghost predicate KeepsNewest(before: Sheet, after: Sheet, i: nat)
    requires i < |before.lists| == |after.lists|
  {
    && |after.lists[i]| <= |before.lists[i]|
    && after.lists[i] == before.lists[i][|before.lists[i]| - |after.lists[i]|..]
  }

  ghost predicate KeepsFirst(before: Sheet, after: Sheet, i: nat)
    requires i < |before.lists| == |after.lists|
  {
    after.lists[i] <= before.lists[i] && (before.lists[i] != [] ==> after.lists[i] != [])
  }

  ghost predicate Spent(sheet: Sheet, i: nat)
    requires i < |sheet.lists|
  {
    if i == 3 || i == 4 || i == 5 then |sheet.lists[i]| <= 1 else sheet.lists[i] == []
  }

  ghost predicate AllSpent(sheet: Sheet) {
    |sheet.lists| == 7 && forall i :: 0 <= i < 7 ==> Spent(sheet, i)
  }

  lemma InOrderAt(s: Sheet, t: Sheet, i: nat)
    requires DroppedInOrder(s, t) && i < 7
    ensures |s.lists[i]| + s.dropped[i] == |t.lists[i]| + t.dropped[i]
    ensures if i == 3 || i == 4 || i == 5 then KeepsFirst(s, t, i) else KeepsNewest(s, t, i)
    ensures Spare(i, t.lists[i]) == 0 ==> Spent(t, i)
    ensures t.dropped[i] - s.dropped[i] == Spare(i, s.lists[i]) ==> Spent(t, i)
  {
    assert t.lists[i] == Remaining(s, t, i);
  }

  lemma SpentInTurn(s: Sheet, t: Sheet, i: nat, j: nat)
    requires DroppedInOrder(s, t) && i < j < 7 && |t.lists[j]| < |s.lists[j]|
    ensures Spent(t, i)
  {
    InOrderAt(s, t, i);
    InOrderAt(s, t, j);
    assert t.dropped[i] - s.dropped[i] == Spare(i, s.lists[i]);
  }

  lemma InOrderIsTrimmed(s: Sheet, t: Sheet)
    requires DroppedInOrder(s, t)
    ensures Trimmed(s, t)
  {
    forall i | 0 <= i < 7
      ensures |s.lists[i]| + s.dropped[i] == |t.lists[i]| + t.dropped[i]
      ensures if i == 3 || i == 4 || i == 5 then KeepsFirst(s, t, i) else KeepsNewest(s, t, i)
    {
      InOrderAt(s, t, i);
    }
    forall i, j | 0 <= i < j < 7 && |t.lists[j]| < |s.lists[j]| ensures Spent(t, i) {
      SpentInTurn(s, t, i, j);
    }
  }

  lemma DropTrims(sheet: Sheet, steps: nat)
    requires ValidSheet(sheet)
    ensures Trimmed(sheet, Drop(sheet, steps))
  {
    DropIsInOrder(sheet, steps);
    InOrderIsTrimmed(sheet, Drop(sheet, steps));
  }

  lemma {:induction false} NothingSpare(lists: seq<seq<Item>>, slot: nat, i: nat)
    requires slot <= i < |lists| && SpareFrom(lists, slot) == 0
    ensures Spare(i, lists[i]) == 0
    decreases |lists| - slot
  {
    if slot < i {
      NothingSpare(lists, slot + 1, i);
    }
  }

  /** Minimising leaves nothing but the first unit of each unit list. */
  lemma MinimisedIsSpent(sheet: Sheet)
    requires ValidSheet(sheet)
    ensures Trimmed(sheet, Minimised(sheet)) && AllSpent(Minimised(sheet))
  {
    DropTrims(sheet, SpareFrom(sheet.lists, 0));
    DropIsInOrder(sheet, SpareFrom(sheet.lists, 0));
    SpareAfterDrop(sheet, SpareFrom(sheet.lists, 0));
    forall i | 0 <= i < 7 ensures Spent(Minimised(sheet), i) {
      NothingSpare(Minimised(sheet).lists, 0, i);
      InOrderAt(sheet, Minimised(sheet), i);
    }
  }

  // ----- lengths of actual text ---------------------------------------------------------

  /** JSON's list separator, its booleans and its numbers. */
  function ListText(items: seq<Item>): string {
    if items == [] then ""
    else if |items| == 1 then items[0].text
    else items[0].text + ", " + ListText(items[1..])
  }

  function ListTexts(lists: seq<seq<Item>>): string {
    if lists == [] then "" else ListText(lists[0]) + ListTexts(lists[1..])
  }

  function DecimalText(n: nat): string {
    if n < 10 then ["0123456789"[n]] else DecimalText(n / 10) + ["0123456789"[n % 10]]
  }

  function DecimalTexts(counters: seq<nat>): string {
    if counters == [] then "" else DecimalText(counters[0]) + DecimalTexts(counters[1..])
  }

  /** Everything that is written besides `frame`, which the loop never touches. */
  function Written(frame: string, sheet: Sheet, compacted: bool, finalChars: nat): string {
    frame + ListTexts(sheet.lists) + DecimalTexts(sheet.dropped) + (if compacted then "true" else "false")
    + DecimalText(finalChars)
  }

  lemma {:induction false} ListTextChars(items: seq<Item>)
    ensures |ListText(items)| == ListChars(items)
  {
    if |items| > 1 {
      ListTextChars(items[1..]);
    }
  }

  lemma {:induction false} ListTextsChars(lists: seq<seq<Item>>)
    ensures |ListTexts(lists)| == ListsChars(lists)
  {
    if lists != [] {
      ListTextChars(lists[0]);
      ListTextsChars(lists[1..]);
    }
  }

  lemma {:induction false} DecimalTextChars(n: nat)
    ensures |DecimalText(n)| == Digits(n)
  {
    if n >= 10 {
      DecimalTextChars(n / 10);
    }
  }

  lemma {:induction false} DecimalTextsChars(counters: seq<nat>)
    ensures |DecimalTexts(counters)| == CountersChars(counters)
  {
    if counters != [] {
      DecimalTextChars(counters[0]);
      DecimalTextsChars(counters[1..]);
    }
  }

  /** The length that is budgeted is the length of the text. */
  lemma PromptCharsMeaning(frame: string, sheet: Sheet, compacted: bool, finalChars: nat)
    ensures PromptChars(|frame|, sheet, compacted, finalChars) == |Written(frame, sheet, compacted, finalChars)|
  {
    ListTextsChars(sheet.lists);
    DecimalTextsChars(sheet.dropped);
    DecimalTextChars(finalChars);
  }

  // ----- the builder's state ------------------------------------------------------------

  datatype BudgetError = MandatoryTooLarge(chars: nat) | StatisticsTooLarge

  /** A prompt under construction: the shared payload lists and the mutable statistics.
      `bareChars` is what system prompt and payload take without those lists and without
      the statistics block, `statisticsChars` the rest of that block. */
  class Draft {
    var lists: seq<seq<Item>>
    var dropped: seq<nat>
    var compacted: bool
    var finalChars: nat
    const bareChars: nat
    const statisticsChars: nat
    const originalChars: nat
    const budget: nat

    constructor (sheet: Sheet, bareChars: nat, statisticsChars: nat, originalChars: nat, budget: nat)
      requires ValidSheet(sheet)
      ensures Valid() && Contents() == sheet && !compacted && finalChars == 0
      ensures this.bareChars == bareChars && this.statisticsChars == statisticsChars
      ensures this.originalChars == originalChars && this.budget == budget
    {
      lists, dropped, compacted, finalChars := sheet.lists, sheet.dropped, false, 0;
      this.bareChars, this.statisticsChars := bareChars, statisticsChars;
      this.originalChars, this.budget := originalChars, budget;
    }

    ghost predicate Valid()
      reads this
    {
      ValidSheet(Contents())
    }

    function Contents(): Sheet
      reads this
    {
      Sheet(lists, dropped)
    }

    function Fixed(): nat { bareChars + statisticsChars }

    /** The loop's probe: the prompt with the budget written where its length will go. */
    predicate Fits(sheet: Sheet) {
      PromptChars(Fixed(), sheet, false, budget) <= budget
    }

    /** What the loop leaves behind when it ends normally: the first sheet that fits. */
    ghost predicate FirstFit(before: Sheet, steps: nat)
      requires ValidSheet(before)
    {
      && steps <= SpareFrom(before.lists, 0)
      && Fits(Drop(before, steps))
      && forall j :: 0 <= j < steps ==> !Fits(Drop(before, j))
    }

    /** The drop loop: whether the prompt fits in the end. */
    method DropUntilFits() returns (fits: bool, ghost steps: nat)
      requires Valid()
      modifies this`lists, this`dropped
      ensures Valid() && Contents() == Drop(old(Contents()), steps)
      ensures fits ==> FirstFit(old(Contents()), steps)
      ensures !fits ==> Contents() == Minimised(old(Contents())) && !Fits(Contents())
    {
      ghost var before := Contents();
      steps := 0;
      while PromptChars(Fixed(), Contents(), false, budget) > budget
        invariant ValidSheet(before) && Valid()
        invariant Contents() == Drop(before, steps) && steps <= SpareFrom(before.lists, 0)
        invariant SpareFrom(lists, 0) == SpareFrom(before.lists, 0) - steps
        invariant forall j :: 0 <= j < steps ==> !Fits(Drop(before, j))
        decreases SpareFrom(lists, 0)
      {
        DropSnoc(before, steps);
        SpareMeaning(Contents(), 0);
        match NextSlot(Contents(), 0)
        case None =>
          return false, steps;
        case Some(slot) =>
          var next := DropAt(Contents(), slot);
          lists, dropped := next.lists, next.dropped;
          steps := steps + 1;
      }
      return true, steps;
    }

    /** Drop, then finish or give up. */
    method Settle() returns (result: Result<nat, BudgetError>, ghost steps: nat)
      requires Valid() && !compacted && finalChars == 0
      modifies this
      ensures Valid() && Contents() == Drop(old(Contents()), steps)
      ensures result.Err? <==> !Fits(Minimised(old(Contents())))
      ensures result.Err? ==>
        && Contents() == Minimised(old(Contents()))
        && result.error == MandatoryTooLarge(PromptChars(Fixed(), Contents(), false, budget))
      ensures result.Ok? ==> FirstFit(old(Contents()), steps) && Finished(result.value)
    {
      ghost var before := Contents();
      var fits: bool;
      fits, steps := DropUntilFits();
      if !fits {
        return Err(MandatoryTooLarge(PromptChars(Fixed(), Contents(), false, budget))), steps;
      }
      MinimisedIsShortest(before, steps);
      var length := Finish();
      if length > budget {
        return Err(StatisticsTooLarge), steps;
      }
      return Ok(length), steps;
    }

    /** The statistics tell the length of the prompt, and whether anything was left out. */
    ghost predicate Finished(length: nat)
      reads this
    {
      && length == finalChars == PromptChars(Fixed(), Contents(), compacted, finalChars) <= budget
      && |dropped| == LIST_COUNT
      && (compacted <==> || originalChars > bareChars + ListsChars(lists)
                         || exists i :: 0 <= i < LIST_COUNT && dropped[i] > 0)
    }

    /** `_fit_prompt`: the length of the finished prompt, or the reason there is none. */
    method Fit() returns (result: Result<nat, BudgetError>, ghost steps: nat)
      requires Valid() && !compacted && finalChars == 0
      modifies this
      ensures Valid() && Trimmed(old(Contents()), Contents())
      ensures result.Err? <==> !Fits(Minimised(old(Contents())))
      ensures result.Err? ==>
        && Contents() == Minimised(old(Contents())) && AllSpent(Contents())
        && result.error == MandatoryTooLarge(PromptChars(Fixed(), Contents(), false, budget))
      ensures result.Ok? ==>
        FirstFit(old(Contents()), steps) && Contents() == Drop(old(Contents()), steps) && Finished(result.value)
    {
      ghost var before := Contents();
      result, steps := Settle();
      DropTrims(before, steps);
      MinimisedIsSpent(before);
    }

    /** Whether anything was left out, and the length of the result. */
    method Finish() returns (length: nat)
      requires Valid() && finalChars == 0
      modifies this`compacted, this`finalChars
      ensures compacted <==> || originalChars > bareChars + ListsChars(lists)
                             || exists i :: 0 <= i < LIST_COUNT && dropped[i] > 0
      ensures length == finalChars == PromptChars(Fixed(), Contents(), compacted, finalChars)
      ensures Fits(Contents()) ==> length <= budget
    {
      compacted := originalChars > bareChars + ListsChars(lists)
                   || exists i :: 0 <= i < LIST_COUNT && dropped[i] > 0;
      length := RenderStable();
    }

    lemma MinimisedIsShortest(before: Sheet, steps: nat)
      requires ValidSheet(before) && steps <= SpareFrom(before.lists, 0) && Fits(Drop(before, steps))
      ensures Fits(Minimised(before))
    {
      DropAppend(before, steps, SpareFrom(before.lists, 0) - steps);
      DroppingNeverLengthens(Fixed(), before, steps, false, budget);
      DroppingNeverLengthens(Fixed(), Drop(before, steps), SpareFrom(before.lists, 0) - steps, false, budget);
    }

    /** The loop's probe and the finished prompt as text: with `frame` for everything that is
        never dropped, the probe asks whether the text that states the budget stays within it,
        and what is finished states its own length and whether anything was left out. */
    lemma TextMeaning(frame: string, sheet: Sheet, length: nat)
      requires |frame| == bareChars + statisticsChars
      ensures Fits(sheet) <==> |Written(frame, sheet, false, budget)| <= budget
      ensures Finished(length) ==>
        && |Written(frame, Contents(), compacted, length)| == length <= budget
        && (compacted <==> || originalChars > bareChars + |ListTexts(lists)|
                           || exists i :: 0 <= i < |dropped| && dropped[i] != 0)
    {
      PromptCharsMeaning(frame, sheet, false, budget);
      PromptCharsMeaning(frame, Contents(), compacted, finalChars);
      ListTextsChars(lists);
    }

    /** Re-render until the length written into the statistics is the length rendered. */
    method RenderStable() returns (length: nat)
      requires Valid() && finalChars == 0
      modifies this`finalChars
      ensures length == finalChars == PromptChars(Fixed(), Contents(), compacted, finalChars)
      ensures PromptChars(Fixed(), Contents(), compacted, budget) <= budget ==> length <= budget
    {
      ghost var body := PromptChars(Fixed(), Contents(), compacted, 0) - 1;
      assert Digits(0) == 1;
      for renders := 0 to 4
        invariant finalChars == Render(body, renders)
        invariant forall n :: PromptChars(Fixed(), Contents(), compacted, n) == body + Digits(n)
      {
        length := PromptChars(Fixed(), Contents(), compacted, finalChars);
        if finalChars == length {
          StaysBelow(body, renders);
          return;
        }
        if renders == 3 {
          FixedPointWithinFour(body);
        }
        finalChars := length;
      }
      FixedPointWithinFour(body);
      StaysBelow(body, 4);
      length := PromptChars(Fixed(), Contents(), compacted, finalChars);
    }

    lemma StaysBelow(body: nat, renders: nat)
      ensures body + Digits(budget) <= budget ==> Render(body, renders) <= budget
    {
      if body + Digits(budget) <= budget {
        RenderStaysBelow(body, budget, renders);
      }
    }
  }

  lemma {:induction false} DropAppend(sheet: Sheet, a: nat, b: nat)
    requires ValidSheet(sheet)
    ensures ValidSheet(Drop(sheet, a))
    ensures Drop(sheet, a + b) == Drop(Drop(sheet, a), b)
    decreases a
  {
    NextSlotMeaning(sheet, 0);
    if a > 0 {
      match NextSlot(sheet, 0)
      case None =>
      case Some(slot) =>
        ValidAfterDrop(sheet, slot);
        DropAppend(DropAt(sheet, slot), a - 1, b);
    }
  }
}
