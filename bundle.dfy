/** `BundleManager`: a fixed row of `maxItems` bundle slots, each empty or
    holding one selected product variant, a cursor on the slot that receives
    the next selection, and a flag that drops selections while one is being
    handled.

    `Engine` and the functions over it are the specification; the class
    `BundleManager` updates its array and fields in place and is proved to
    follow it. */
module Bundle {
  import opened Wrappers
  import Money

  type VariantId = int

  /** A selected product in a slot. */
  datatype Item = Item(title: string, variantId: VariantId, image: string, price: int, quantity: int)

  /** A slot of `selectedItems`: `None` is JavaScript's `null`. */
  type Slot = Option<Item>

  /** The `detail` of a `biscuits--product-selection` event. `None` stands for
      a field that is missing, `null` or `NaN`. */
  datatype Selection = Selection(
    title: string,
    variantId: VariantId,
    variantTitle: string,
    quantity: Option<int>,
    price: Option<int>)

  // ---------------------------------------------------------------------------
  // The new item's fields

  const DefaultTitle: string := "Default Title"

  predicate OccursAt(s: string, pat: string, k: int) {
    0 <= k && k + |pat| <= |s| && s[k..k + |pat|] == pat
  }

  /** The first position at or after `from` where `pat` occurs. */
  function IndexOf(s: string, pat: string, from: nat): (r: Option<nat>)
    requires from <= |s|
    ensures r.Some? ==> from <= r.value && OccursAt(s, pat, r.value)
    ensures r.Some? ==> forall k :: from <= k < r.value ==> !OccursAt(s, pat, k)
    ensures r.None? ==> forall k :: from <= k ==> !OccursAt(s, pat, k)
    decreases |s| - from
  {
    if OccursAt(s, pat, from) then Some(from)
    else if from == |s| then None
    else IndexOf(s, pat, from + 1)
  }

  /** `s.replace(pat, '')`: the first occurrence of `pat` removed. */
  function RemoveFirst(s: string, pat: string): (r: string)
    ensures (forall k :: !OccursAt(s, pat, k)) ==> r == s
    ensures (exists k :: OccursAt(s, pat, k)) ==> |r| == |s| - |pat|
    ensures forall i :: OccursAt(s, pat, i) && (forall k :: 0 <= k < i ==> !OccursAt(s, pat, k)) ==>
              r == s[..i] + s[i + |pat|..]
  {
    match IndexOf(s, pat, 0)
    case None => s
    case Some(i) => s[..i] + s[i + |pat|..]
  }

  /** JavaScript's `value || fallback` on a number. */
  function OrDefault(value: Option<int>, fallback: int): (r: int)
    ensures value.Some? && value.value != 0 ==> r == value.value
    ensures value.None? || value.value == 0 ==> r == fallback
  {
    if value.Some? && value.value != 0 then value.value else fallback
  }

  /** The item a new selection writes into a slot. */
  function NewItem(sel: Selection, image: string): (item: Item)
    ensures item.variantId == sel.variantId && item.image == image
    ensures item.title == RemoveFirst(sel.title + " " + sel.variantTitle, DefaultTitle)
    ensures item.quantity != 0 && item.quantity == OrDefault(sel.quantity, 1)
    ensures item.price == OrDefault(sel.price, 0)
  {
    Item(RemoveFirst(sel.title + " " + sel.variantTitle, DefaultTitle), sel.variantId, image,
         OrDefault(sel.price, 0), OrDefault(sel.quantity, 1))
  }

  /** A single-variant product: the variant title "Default Title" is dropped,
      leaving the title and the joining space. No occurrence can straddle the
      joining space, so it is enough that the product title holds none. */
  lemma DefaultVariantTitleDropped(title: string)
    requires forall k :: !OccursAt(title, DefaultTitle, k)
    ensures RemoveFirst(title + " " + DefaultTitle, DefaultTitle) == title + " "
  {
    var s := title + " " + DefaultTitle;
    var n := |title| + 1;
    var len := |DefaultTitle|;
    assert OccursAt(s, DefaultTitle, n) by {
      assert s[n..n + len] == DefaultTitle;
    }
    assert forall t :: 0 <= t < |title| ==> s[t] == title[t];
    assert s[|title|] == ' ' && s[n] == 'D';
    forall k | 0 <= k < n ensures !OccursAt(s, DefaultTitle, k) {
      if k + len <= |title| {
        assert s[k..k + len] == title[k..k + len];
        assert !OccursAt(title, DefaultTitle, k);
      } else {
        // The window holds the joining space at `j`; "Default Title" has its
        // only space at 7, and the window then reads 'D' where it needs 'T'.
        var j := |title| - k;
        assert s[k..k + len][j] == ' ';
        if j == 7 {
          assert s[k..k + len][8] == 'D';
        }
      }
    }
    assert IndexOf(s, DefaultTitle, 0) == Some(n);
    assert s[..n] == title + " ";
    assert s[n + len..] == [];
  }

  // ---------------------------------------------------------------------------
  // The specification of the engine

  /** `selectedItems`, `activeSlotIndex` and `isProcessing`. */
  datatype Engine = Engine(slots: seq<Slot>, active: nat, processing: bool)

  predicate Holds(slot: Slot, v: VariantId) {
    slot.Some? && slot.value.variantId == v
  }

  /** No variant sits in two slots. */
  predicate Unique(slots: seq<Slot>) {
    forall i, j :: 0 <= i < j < |slots| && slots[i].Some? && slots[j].Some? ==>
      slots[i].value.variantId != slots[j].value.variantId
  }

  /** `selectedItems.findIndex(item => item && item.variantId === v)`. */
  function IndexOfVariant(slots: seq<Slot>, v: VariantId): (r: Option<nat>)
    ensures r.Some? ==> r.value < |slots| && Holds(slots[r.value], v)
    ensures r.Some? ==> forall j :: 0 <= j < r.value ==> !Holds(slots[j], v)
    ensures r.None? ==> forall j :: 0 <= j < |slots| ==> !Holds(slots[j], v)
  {
    if slots == [] then None
    else if Holds(slots[0], v) then Some(0)
    else match IndexOfVariant(slots[1..], v)
      case None => None
      case Some(k) => Some(k + 1)
  }

  /** `selectedItems.findIndex(item => item === null)`. */
  function FirstEmpty(slots: seq<Slot>): (r: Option<nat>)
    ensures r.Some? ==> r.value < |slots| && slots[r.value].None?
    ensures r.Some? ==> forall j :: 0 <= j < r.value ==> slots[j].Some?
    ensures r.None? ==> forall j :: 0 <= j < |slots| ==> slots[j].Some?
  {
    if slots == [] then None
    else if slots[0].None? then Some(0)
    else match FirstEmpty(slots[1..])
      case None => None
      case Some(k) => Some(k + 1)
  }

  /** `advanceToNextEmptySlot`: the lowest empty slot, or the cursor unchanged
      when every slot is filled. */
  function NextActive(slots: seq<Slot>, active: nat): (r: nat)
    ensures (exists i :: 0 <= i < |slots| && slots[i].None?) ==>
              r < |slots| && slots[r].None? && forall j :: 0 <= j < r ==> slots[j].Some?
    ensures (forall i :: 0 <= i < |slots| ==> slots[i].Some?) ==> r == active
  {
    match FirstEmpty(slots)
    case Some(i) => i
    case None => active
  }

  /** The state after construction: every slot empty, cursor on slot 0. */
  function Initial(maxItems: nat): (e: Engine)
    ensures |e.slots| == maxItems && Unique(e.slots) && e.active == 0 && !e.processing
    ensures forall i :: 0 <= i < maxItems ==> e.slots[i].None?
  {
    Engine(seq(maxItems, _ => None), 0, false)
  }

  /** `handleProductSelection`: dropped while processing; otherwise a variant
      already in a slot is removed from it, and a new variant is written into
      the active slot when that slot exists and is empty, after which the
      cursor moves to the lowest empty slot. */
  function Select(e: Engine, sel: Selection, image: string): (r: Engine)
    ensures |r.slots| == |e.slots|
    ensures e.processing ==> r == e
    ensures r.processing
  {
    if e.processing then e
    else match IndexOfVariant(e.slots, sel.variantId)
      case Some(k) => Engine(e.slots[k := None], e.active, true)
      case None =>
        if e.active < |e.slots| && e.slots[e.active].None? then
          var slots := e.slots[e.active := Some(NewItem(sel, image))];
          Engine(slots, NextActive(slots, e.active), true)
        else
          Engine(e.slots, e.active, true)
  }

  /** A click on trigger card `index`: the cursor moves there, unconditionally. */
  function ClickCard(e: Engine, index: nat): (r: Engine)
    ensures r.active == index && r.slots == e.slots && r.processing == e.processing
  {
    e.(active := index)
  }

  /** The timer that clears `isProcessing` 100 ms after a handled selection. */
  function Release(e: Engine): (r: Engine)
    ensures !r.processing && r.slots == e.slots && r.active == e.active
  {
    e.(processing := false)
  }

  // ---------------------------------------------------------------------------
  // What a selection does

  /** A selection that arrives while one is being handled changes nothing. */
  lemma SelectWhileProcessing(e: Engine, sel: Selection, image: string)
    requires e.processing
    ensures Select(e, sel, image) == e
  {
  }

  /** A handled selection keeps the number of slots and keeps variants unique. */
  lemma SelectKeepsInvariant(e: Engine, sel: Selection, image: string)
    requires Unique(e.slots)
    ensures |Select(e, sel, image).slots| == |e.slots|
    ensures Unique(Select(e, sel, image).slots)
  {
    var r := Select(e, sel, image);
    if !e.processing && IndexOfVariant(e.slots, sel.variantId).None?
       && e.active < |e.slots| && e.slots[e.active].None? {
      var s := r.slots;
      forall i, j | 0 <= i < j < |s| && s[i].Some? && s[j].Some?
        ensures s[i].value.variantId != s[j].value.variantId
      {
        if i != e.active && j != e.active {
          assert s[i] == e.slots[i] && s[j] == e.slots[j];
        } else if i == e.active {
          assert !Holds(e.slots[j], sel.variantId);
        } else {
          assert !Holds(e.slots[i], sel.variantId);
        }
      }
    }
  }

  /** Selecting a variant that is already in slot `k` empties exactly that
      slot and leaves the cursor where it was. */
  lemma DeselectClearsOnlyThatSlot(e: Engine, sel: Selection, image: string, k: nat)
    requires !e.processing && Unique(e.slots)
    requires k < |e.slots| && Holds(e.slots[k], sel.variantId)
    ensures Select(e, sel, image) == Engine(e.slots[k := None], e.active, true)
  {
  }

  /** Every slot a handled selection changes is either the active slot, which
      was empty and now holds the new item, or the slot that held the selected
      variant, which is now empty; and at most one slot changes. */
  lemma SelectChangesOneSlot(e: Engine, sel: Selection, image: string)
    ensures var r := Select(e, sel, image);
      && |r.slots| == |e.slots|
      && (forall i :: 0 <= i < |e.slots| && r.slots[i] != e.slots[i] ==>
            || (i == e.active && e.slots[i].None? && r.slots[i] == Some(NewItem(sel, image))
                && forall j :: 0 <= j < |e.slots| ==> !Holds(e.slots[j], sel.variantId))
            || (Holds(e.slots[i], sel.variantId) && r.slots[i].None?))
      && (forall i, j :: 0 <= i < j < |e.slots| && r.slots[i] != e.slots[i] ==> r.slots[j] == e.slots[j])
  {
  }

  /** After a new item is written, the cursor is on the lowest empty slot if
      there is one, and otherwise stays on the slot just filled. */
  lemma WriteAdvancesToLowestEmpty(e: Engine, sel: Selection, image: string)
    requires !e.processing && IndexOfVariant(e.slots, sel.variantId).None?
    requires e.active < |e.slots| && e.slots[e.active].None?
    ensures var r := Select(e, sel, image);
      && r.slots[e.active] == Some(NewItem(sel, image))
      && ((exists i :: 0 <= i < |r.slots| && r.slots[i].None?) ==>
            r.active < |r.slots| && r.slots[r.active].None?
            && forall j :: 0 <= j < r.active ==> r.slots[j].Some?)
      && ((forall i :: 0 <= i < |r.slots| ==> r.slots[i].Some?) ==> r.active == e.active)
  {
  }

  /** A new variant is written only into an existing, empty active slot:
      otherwise the slots and the cursor are left as they were. */
  lemma OccupiedActiveSlotRefuses(e: Engine, sel: Selection, image: string)
    requires !e.processing && IndexOfVariant(e.slots, sel.variantId).None?
    requires e.active >= |e.slots| || e.slots[e.active].Some?
    ensures Select(e, sel, image) == e.(processing := true)
  {
  }

  // ---------------------------------------------------------------------------
  // Filled slots and what render shows

  /** The number of filled slots, `selectedItems.filter(i => i).length`. */
  function FilledCount(slots: seq<Slot>): (n: nat)
    ensures n <= |slots|
    ensures n == 0 <==> forall i :: 0 <= i < |slots| ==> slots[i].None?
    ensures n == |slots| <==> forall i :: 0 <= i < |slots| ==> slots[i].Some?
  {
    if slots == [] then 0
    else FilledCount(slots[..|slots| - 1]) + (if slots[|slots| - 1].Some? then 1 else 0)
  }

  /** Setting one slot moves the count by the change at that slot. */
  lemma {:induction false} FilledCountUpdate(slots: seq<Slot>, k: nat, x: Slot)
    requires k < |slots|
    ensures FilledCount(slots[k := x]) ==
            FilledCount(slots) - (if slots[k].Some? then 1 else 0) + (if x.Some? then 1 else 0)
    decreases |slots|
  {
    var s := slots[k := x];
    var n := |slots|;
    var last := if slots[n - 1].Some? then 1 else 0;
    assert FilledCount(slots) == FilledCount(slots[..n - 1]) + last;
    if k < n - 1 {
      assert s[..n - 1] == slots[..n - 1][k := x];
      assert s[n - 1] == slots[n - 1];
      assert FilledCount(s) == FilledCount(s[..n - 1]) + last;
      FilledCountUpdate(slots[..n - 1], k, x);
    } else {
      assert s[..n - 1] == slots[..n - 1];
      assert FilledCount(s) == FilledCount(slots[..n - 1]) + (if x.Some? then 1 else 0);
    }
  }

  /** Deselecting lowers the filled count by one, writing raises it by one. */
  lemma SelectMovesCountByOne(e: Engine, sel: Selection, image: string)
    requires !e.processing
    ensures var r := Select(e, sel, image);
      && (IndexOfVariant(e.slots, sel.variantId).Some? ==> FilledCount(r.slots) == FilledCount(e.slots) - 1)
      && ((IndexOfVariant(e.slots, sel.variantId).None? && e.active < |e.slots| && e.slots[e.active].None?)
            ==> FilledCount(r.slots) == FilledCount(e.slots) + 1)
  {
    match IndexOfVariant(e.slots, sel.variantId)
    case Some(k) =>
      FilledCountUpdate(e.slots, k, None);
    case None =>
      if e.active < |e.slots| && e.slots[e.active].None? {
        FilledCountUpdate(e.slots, e.active, Some(NewItem(sel, image)));
      }
  }

  /** A trigger card as rendered: empty, or the item's image and title with a
      quantity badge when the quantity exceeds one. */
  datatype Card = EmptyCard | FilledCard(image: string, title: string, badge: Option<int>)

  /** What `render` sets: the cards and the two class toggles. */
  datatype View = View(cards: seq<Card>, addToCartDisabled: bool, priceVisible: bool)

  function CardOf(slot: Slot): Card {
    match slot
    case None => EmptyCard
    case Some(item) => FilledCard(item.image, item.title, if item.quantity > 1 then Some(item.quantity) else None)
  }

  /** `selectedItems[index]`; out of range it reads as `undefined`, an empty card. */
  function SlotAt(slots: seq<Slot>, index: nat): Slot {
    if index < |slots| then slots[index] else None
  }

  /** `render` over `cardCount` trigger cards. */
  function ViewOf(slots: seq<Slot>, maxItems: nat, cardCount: nat): (v: View)
    ensures |v.cards| == cardCount
    ensures forall i :: 0 <= i < cardCount ==> (v.cards[i].FilledCard? <==> i < |slots| && slots[i].Some?)
    ensures forall i :: 0 <= i < cardCount && i < |slots| && slots[i].Some? ==>
              (v.cards[i].badge.Some? <==> slots[i].value.quantity > 1)
    ensures |slots| == maxItems ==> (v.addToCartDisabled <==> exists i :: 0 <= i < |slots| && slots[i].None?)
    ensures v.priceVisible <==> exists i :: 0 <= i < |slots| && slots[i].Some?
  {
    View(seq(cardCount, (i: int) requires 0 <= i => CardOf(SlotAt(slots, i))), FilledCount(slots) != maxItems, FilledCount(slots) > 0)
  }

  // ---------------------------------------------------------------------------
  // Sequences of events

  datatype Command =
    | ProductSelected(sel: Selection, image: string)
    | CardClicked(index: nat)
    | Released

  function Step(e: Engine, c: Command): Engine {
    match c
    case ProductSelected(sel, image) => Select(e, sel, image)
    case CardClicked(index) => ClickCard(e, index)
    case Released => Release(e)
  }

  function Run(e: Engine, cs: seq<Command>): Engine
    decreases |cs|
  {
    if cs == [] then e else Run(Step(e, cs[0]), cs[1..])
  }

  /** Whatever the events, the row keeps `maxItems` slots, no variant sits in
      two slots, and at most `maxItems` slots are filled. */
  lemma {:induction false} RunKeepsInvariant(e: Engine, cs: seq<Command>)
    requires Unique(e.slots)
    ensures |Run(e, cs).slots| == |e.slots|
    ensures Unique(Run(e, cs).slots)
    ensures FilledCount(Run(e, cs).slots) <= |e.slots|
    decreases |cs|
  {
    if cs != [] {
      var e' := Step(e, cs[0]);
      if cs[0].ProductSelected? {
        SelectKeepsInvariant(e, cs[0].sel, cs[0].image);
      }
      RunKeepsInvariant(e', cs[1..]);
    }
  }

  /** When no card lies beyond the last slot, the cursor always stays on a
      slot. */
  lemma {:induction false} RunKeepsCursorInRange(e: Engine, cs: seq<Command>, cardCount: nat)
    requires cardCount <= |e.slots| && e.active < |e.slots|
    requires forall i :: 0 <= i < |cs| && cs[i].CardClicked? ==> cs[i].index < cardCount
    ensures Run(e, cs).active < |e.slots|
    decreases |cs|
  {
    if cs != [] {
      var e' := Step(e, cs[0]);
      assert |e'.slots| == |e.slots|;
      RunKeepsCursorInRange(e', cs[1..], cardCount);
    }
  }

  // ---------------------------------------------------------------------------
  // Price display

  /** The `biscuits-bundle-form` element's price fields. */
  datatype PriceForm = PriceForm(compareAtPrice: Money.Amount, totalPrice: Money.Amount, moneyFormat: Option<string>)

  /** The three texts `handlePriceUpdate` writes. */
  datatype PriceTexts = PriceTexts(total: string, discounted: string, savings: string)

  /** JavaScript subtraction of two amounts: `null` counts as 0, `NaN` spreads. */
  function Subtract(a: Money.Amount, b: Money.Amount): (r: Money.Amount)
    ensures a.Cents? && b.Cents? ==> r == Money.Cents(a.n - b.n)
    ensures a.NotANumber? || b.NotANumber? ==> r.NotANumber?
  {
    if a.NotANumber? || b.NotANumber? then Money.NotANumber
    else Money.Cents((if a.Cents? then a.n else 0) - (if b.Cents? then b.n else 0))
  }

  /** `handlePriceUpdate`: nothing without the form; otherwise the compare-at
      price, the total and the savings `compareAt - total` (negative when the
      total exceeds the compare-at price), each through the form's template. */
  function PriceUpdate(form: Option<PriceForm>): (r: Option<PriceTexts>)
    ensures r.None? <==> form.None?
    ensures r.Some? ==> r.value.savings == Money.FormatMoney(Subtract(form.value.compareAtPrice, form.value.totalPrice), form.value.moneyFormat)
  {
    match form
    case None => None
    case Some(f) =>
      var format := Some(Money.Template(f.moneyFormat));
      Some(PriceTexts(
        Money.FormatMoney(f.compareAtPrice, format),
        Money.FormatMoney(f.totalPrice, format),
        Money.FormatMoney(Subtract(f.compareAtPrice, f.totalPrice), format)))
  }

  /** With the default template the savings text is `$` followed by an amount
      that reads back as exactly `compareAt - total`. */
  lemma SavingsReadsBack(compareAt: int, total: int)
    ensures var texts := PriceUpdate(Some(PriceForm(Money.Cents(compareAt), Money.Cents(total), None))).value;
      && |texts.savings| >= 1 && texts.savings[0] == '$'
      && Money.ParseAmount(texts.savings[1..], ',', '.') == compareAt - total
  {
    SavingsIsDollarAmount(compareAt, total);
    DollarAmountReadsBack(compareAt - total);
  }

  /** `$` followed by the two-decimal amount reads back as that amount. */
  lemma DollarAmountReadsBack(x: int)
    ensures var s := "$" + Money.FormatWithDelimiters(Money.Cents(x), Money.TwoDecimals, ',', '.');
      && |s| >= 1 && s[0] == '$' && Money.ParseAmount(s[1..], ',', '.') == x
  {
    var amount := Money.FormatWithDelimiters(Money.Cents(x), Money.TwoDecimals, ',', '.');
    assert ("$" + amount)[1..] == amount;
    Money.FormatTwoDecimalsRoundTrip(x, ',', '.');
  }

  lemma SavingsIsDollarAmount(compareAt: int, total: int)
    ensures PriceUpdate(Some(PriceForm(Money.Cents(compareAt), Money.Cents(total), None))).value.savings
            == "$" + Money.FormatWithDelimiters(Money.Cents(compareAt - total), Money.TwoDecimals, ',', '.')
  {
    var difference := Money.Cents(compareAt - total);
    assert Subtract(Money.Cents(compareAt), Money.Cents(total)) == difference;
    Money.DollarAmountTemplate(difference);
    assert Money.FormatMoney(difference, None) == Money.FormatMoney(difference, Some(Money.DefaultFormat));
    assert Money.KeyValue("amount", difference) == Money.FormatWithDelimiters(difference, Money.TwoDecimals, ',', '.');
  }

  // ---------------------------------------------------------------------------
  // The object

  class BundleManager {
    const maxItems: nat
    /** The number of `.bundle-trigger-card` elements on the page. */
    const cardCount: nat
    const selectedItems: array<Slot>
    var activeSlotIndex: nat
    var isProcessing: bool

    ghost predicate Valid()
      reads this
    {
      selectedItems.Length == maxItems && maxItems >= 1
    }

    /** The invariant every handled selection keeps. */
    ghost predicate Consistent()
      reads this, selectedItems
    {
      Valid() && Unique(selectedItems[..])
    }

    ghost function State(): Engine
      reads this, selectedItems
    {
      Engine(selectedItems[..], activeSlotIndex, isProcessing)
    }

    constructor (maxItems: nat, cardCount: nat)
      requires maxItems >= 1
      ensures Consistent() && fresh(selectedItems)
      ensures this.maxItems == maxItems && this.cardCount == cardCount
      ensures State() == Initial(maxItems)
    {
      this.maxItems := maxItems;
      this.cardCount := cardCount;
      selectedItems := new Slot[maxItems](_ => None);
      activeSlotIndex := 0;
      isProcessing := false;
      new;
      assert selectedItems[..] == Initial(maxItems).slots;
    }

    /** `findIndex` for the slot holding variant `v`, or -1. */
    method FindVariantSlot(v: VariantId) returns (index: int)
      ensures index == (match IndexOfVariant(selectedItems[..], v) case Some(k) => k as int case None => -1)
    {
      index := 0;
      while index < selectedItems.Length
        invariant 0 <= index <= selectedItems.Length
        invariant forall j :: 0 <= j < index ==> !Holds(selectedItems[j], v)
      {
        if Holds(selectedItems[index], v) {
          return;
        }
        index := index + 1;
      }
      index := -1;
    }

    /** `advanceToNextEmptySlot`. */
    method AdvanceToNextEmptySlot()
      modifies this`activeSlotIndex
      ensures activeSlotIndex == NextActive(selectedItems[..], old(activeSlotIndex))
    {
      var i := 0;
      while i < selectedItems.Length
        invariant 0 <= i <= selectedItems.Length
        invariant forall j :: 0 <= j < i ==> selectedItems[j].Some?
      {
        if selectedItems[i].None? {
          activeSlotIndex := i;
          return;
        }
        i := i + 1;
      }
    }

    /** `handleProductSelection`; a handled selection re-renders. */
    method HandleProductSelection(sel: Selection, image: string) returns (rendered: Option<View>)
      requires Consistent()
      modifies this, selectedItems
      ensures Consistent()
      ensures State() == Select(old(State()), sel, image)
      ensures rendered == if old(isProcessing) then None else Some(ViewOf(selectedItems[..], maxItems, cardCount))
    {
      ghost var before := State();
      if isProcessing {
        return None;
      }
      isProcessing := true;
      var existing := FindVariantSlot(sel.variantId);
      if existing != -1 {
        selectedItems[existing] := None;
      } else if activeSlotIndex < selectedItems.Length && selectedItems[activeSlotIndex].None? {
        selectedItems[activeSlotIndex] := Some(NewItem(sel, image));
        AdvanceToNextEmptySlot();
      }
      SelectKeepsInvariant(before, sel, image);
      var view := Render();
      rendered := Some(view);
    }

    /** The click handler of trigger card `index`. */
    method ClickCard(index: nat) returns (view: View)
      requires index < cardCount
      modifies this`activeSlotIndex
      ensures activeSlotIndex == index
      ensures view == ViewOf(selectedItems[..], maxItems, cardCount)
    {
      activeSlotIndex := index;
      view := Render();
    }

    /** The `setTimeout` callback that ends processing. */
    method Release()
      modifies this`isProcessing
      ensures !isProcessing
    {
      isProcessing := false;
    }

    /** `render`: one card per trigger card, and the two class toggles. */
    method Render() returns (view: View)
      ensures view == ViewOf(selectedItems[..], maxItems, cardCount)
    {
      var cards: seq<Card> := [];
      var i := 0;
      while i < cardCount
        invariant 0 <= i <= cardCount
        invariant |cards| == i
        invariant forall k :: 0 <= k < i ==> cards[k] == CardOf(SlotAt(selectedItems[..], k))
      {
        var slot := if i < selectedItems.Length then selectedItems[i] else None;
        cards := cards + [CardOf(slot)];
        i := i + 1;
      }
      var filled := 0;
      var j := 0;
      while j < selectedItems.Length
        invariant 0 <= j <= selectedItems.Length
        invariant filled == FilledCount(selectedItems[..j])
      {
        assert selectedItems[..j + 1][..j] == selectedItems[..j];
        if selectedItems[j].Some? {
          filled := filled + 1;
        }
        j := j + 1;
      }
      assert selectedItems[..j] == selectedItems[..];
      view := View(cards, filled != maxItems, filled > 0);
    }
  }
}
