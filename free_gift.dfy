/** The cart drawer's free gift: from a snapshot of the cart it decides whether
    to add the gift product, remove the gift line, or do nothing, and a flag
    remembers that the shopper removed the gift by hand.

    The decision and the flag's transitions are functions; the class
    `GiftSession` holds the flag and is proved to follow them. The outcome of
    each cart request (success or failure) is an input. */
module FreeGift {
  import opened Wrappers

  /** `MIN_PRICE_FOR_GIFT`, in cents. */
  const MinPriceForGift: int := 5000

  /** A line of the cart snapshot. A missing `properties` object is the empty
      map; only string values can equal `'true'`, so values are strings. */
  datatype LineItem = LineItem(id: int, price: int, quantity: int, properties: map<string, string>, key: string)

  predicate IsTrue(item: LineItem, property: string) {
    property in item.properties && item.properties[property] == "true"
  }

  /** A gift line: the gift product, marked `_gift_product: 'true'`. */
  predicate IsGift(item: LineItem, giftId: int) {
    item.id == giftId && IsTrue(item, "_gift_product")
  }

  predicate FromLandingPage(item: LineItem) {
    IsTrue(item, "_from_landing_pages")
  }

  // ---------------------------------------------------------------------------
  // The cart snapshot

  /** `items.some(item => item.properties?._from_landing_pages === 'true')`. */
  predicate HasLandingPageItem(items: seq<LineItem>) {
    exists i :: 0 <= i < |items| && FromLandingPage(items[i])
  }

  /** `items.find(...)` for a gift line, as its position. */
  function FindGift(items: seq<LineItem>, giftId: int): (r: Option<nat>)
    ensures r.Some? ==> r.value < |items| && IsGift(items[r.value], giftId)
    ensures r.Some? ==> forall j :: 0 <= j < r.value ==> !IsGift(items[j], giftId)
    ensures r.None? ==> forall j :: 0 <= j < |items| ==> !IsGift(items[j], giftId)
  {
    if items == [] then None
    else if IsGift(items[0], giftId) then Some(0)
    else match FindGift(items[1..], giftId)
      case None => None
      case Some(k) => Some(k + 1)
  }

  /** `items.filter(item => !isGift(item))`. */
  function NonGiftItems(items: seq<LineItem>, giftId: int): (r: seq<LineItem>)
    ensures |r| <= |items|
    ensures forall i :: 0 <= i < |r| ==> !IsGift(r[i], giftId)
  {
    if items == [] then []
    else (if IsGift(items[0], giftId) then [] else [items[0]]) + NonGiftItems(items[1..], giftId)
  }

  /** The filter keeps exactly the lines that are not gift lines. */
  lemma {:induction false} NonGiftMembers(items: seq<LineItem>, giftId: int, x: LineItem)
    ensures x in NonGiftItems(items, giftId) <==> x in items && !IsGift(x, giftId)
    decreases |items|
  {
    if items != [] {
      NonGiftMembers(items[1..], giftId, x);
      assert items == [items[0]] + items[1..];
    }
  }

  /** The `reduce`: `price * quantity` summed, from the left, over the lines
      that come from a landing page. */
  function LandingTotal(items: seq<LineItem>): int {
    if items == [] then 0
    else LandingTotal(items[..|items| - 1]) + LineTotal(items[|items| - 1])
  }

  function LineTotal(item: LineItem): int {
    if FromLandingPage(item) then item.price * item.quantity else 0
  }

  /** `priceWithoutGift`. */
  function PriceWithoutGift(items: seq<LineItem>, giftId: int): int {
    LandingTotal(NonGiftItems(items, giftId))
  }

  /** `shouldHaveGift`. */
  predicate ShouldHaveGift(items: seq<LineItem>, giftId: int) {
    && HasLandingPageItem(items)
    && PriceWithoutGift(items, giftId) >= MinPriceForGift
    && |NonGiftItems(items, giftId)| > 0
  }

  lemma {:induction false} NonGiftAppend(a: seq<LineItem>, b: seq<LineItem>, giftId: int)
    ensures NonGiftItems(a + b, giftId) == NonGiftItems(a, giftId) + NonGiftItems(b, giftId)
    decreases |a|
  {
    if a == [] {
      assert a + b == b;
    } else {
      var head := if IsGift(a[0], giftId) then [] else [a[0]];
      assert (a + b)[0] == a[0];
      assert (a + b)[1..] == a[1..] + b;
      NonGiftAppend(a[1..], b, giftId);
      calc {
        NonGiftItems(a + b, giftId);
        head + NonGiftItems(a[1..] + b, giftId);
        head + (NonGiftItems(a[1..], giftId) + NonGiftItems(b, giftId));
        (head + NonGiftItems(a[1..], giftId)) + NonGiftItems(b, giftId);
        NonGiftItems(a, giftId) + NonGiftItems(b, giftId);
      }
    }
  }

  lemma {:induction false} LandingTotalAppend(a: seq<LineItem>, b: seq<LineItem>)
    ensures LandingTotal(a + b) == LandingTotal(a) + LandingTotal(b)
    decreases |b|
  {
    if b == [] {
      assert a + b == a;
    } else {
      var b' := b[..|b| - 1];
      assert (a + b)[..|a + b| - 1] == a + b';
      assert (a + b)[|a + b| - 1] == b[|b| - 1];
      LandingTotalAppend(a, b');
    }
  }

  /** A gift line never counts toward `priceWithoutGift`, wherever it sits. */
  lemma GiftLineDoesNotCount(before: seq<LineItem>, gift: LineItem, after: seq<LineItem>, giftId: int)
    requires IsGift(gift, giftId)
    ensures PriceWithoutGift(before + [gift] + after, giftId) == PriceWithoutGift(before + after, giftId)
  {
    NonGiftAppend(before + [gift], after, giftId);
    NonGiftAppend(before, [gift], giftId);
    NonGiftAppend(before, after, giftId);
    assert NonGiftItems([gift], giftId) == [] by {
      assert [gift][1..] == [];
    }
    assert NonGiftItems(before, giftId) + [] == NonGiftItems(before, giftId);
  }

  /** With no line of negative value, a positive landing-page total has a
      landing-page line behind it. */
  lemma {:induction false} PositiveTotalHasLandingLine(items: seq<LineItem>)
    requires forall i :: 0 <= i < |items| ==> items[i].price * items[i].quantity >= 0
    ensures LandingTotal(items) >= 0
    ensures LandingTotal(items) > 0 ==> exists i :: 0 <= i < |items| && FromLandingPage(items[i])
    decreases |items|
  {
    if items != [] {
      var init := items[..|items| - 1];
      assert forall i :: 0 <= i < |init| ==> init[i] == items[i];
      PositiveTotalHasLandingLine(init);
      if LandingTotal(items) > 0 && !FromLandingPage(items[|items| - 1]) {
        var i :| 0 <= i < |init| && FromLandingPage(init[i]);
        assert items[i] == init[i];
      }
    }
  }

  /** With no line of negative value, reaching the threshold already implies
      a landing-page line and a non-gift line, so `shouldHaveGift` is the
      threshold alone. */
  lemma ShouldHaveGiftIsThreshold(items: seq<LineItem>, giftId: int)
    requires forall i :: 0 <= i < |items| ==> items[i].price * items[i].quantity >= 0
    ensures ShouldHaveGift(items, giftId) <==> PriceWithoutGift(items, giftId) >= MinPriceForGift
  {
    var rest := NonGiftItems(items, giftId);
    forall i | 0 <= i < |rest| ensures rest[i].price * rest[i].quantity >= 0 {
      NonGiftMembers(items, giftId, rest[i]);
    }
    PositiveTotalHasLandingLine(rest);
    if PriceWithoutGift(items, giftId) >= MinPriceForGift {
      var i :| 0 <= i < |rest| && FromLandingPage(rest[i]);
      NonGiftMembers(items, giftId, rest[i]);
      var j :| 0 <= j < |items| && items[j] == rest[i];
      assert FromLandingPage(items[j]);
    }
  }

  // ---------------------------------------------------------------------------
  // The decision

  /** One line of the `cart/add.js` request. */
  datatype AddLine = AddLine(id: int, quantity: int, properties: map<string, string>)

  /** The request `updateFreeGift` sends, if any. */
  datatype Request =
    | AddGift(items: seq<AddLine>)            // POST cart/add.js
    | RemoveGift(updates: map<string, int>)   // POST cart/update.js
    | NoRequest

  /** The decision of `updateFreeGift`. */
  function Decide(items: seq<LineItem>, giftId: int, manuallyRemoved: bool): (r: Request)
    ensures r.AddGift? <==> ShouldHaveGift(items, giftId) && FindGift(items, giftId).None? && !manuallyRemoved
    ensures r.RemoveGift? <==> !ShouldHaveGift(items, giftId) && FindGift(items, giftId).Some?
    ensures r.AddGift? ==> r.items == [AddLine(giftId, 1, map["_gift_product" := "true"])]
    ensures r.RemoveGift? ==> r.updates == map[items[FindGift(items, giftId).value].key := 0]
  {
    var gift := FindGift(items, giftId);
    var should := ShouldHaveGift(items, giftId);
    if should && gift.None? && !manuallyRemoved then
      AddGift([AddLine(giftId, 1, map["_gift_product" := "true"])])
    else if !should && gift.Some? then
      RemoveGift(map[items[gift.value].key := 0])
    else
      NoRequest
  }

  /** An eligible cart that already holds the gift, and a cart that is not
      eligible and holds none, cause no request. */
  lemma SettledCartsCauseNoRequest(items: seq<LineItem>, giftId: int, manuallyRemoved: bool)
    requires ShouldHaveGift(items, giftId) <==> FindGift(items, giftId).Some?
    ensures Decide(items, giftId, manuallyRemoved) == NoRequest
  {
  }

  /** With no line of negative value, the decision depends on the cart only
      through the threshold and the first gift line. */
  lemma DecideByThreshold(items: seq<LineItem>, giftId: int, manuallyRemoved: bool)
    requires forall i :: 0 <= i < |items| ==> items[i].price * items[i].quantity >= 0
    ensures var eligible := PriceWithoutGift(items, giftId) >= MinPriceForGift;
      var gift := FindGift(items, giftId);
      Decide(items, giftId, manuallyRemoved) ==
        if eligible && gift.None? && !manuallyRemoved then AddGift([AddLine(giftId, 1, map["_gift_product" := "true"])])
        else if !eligible && gift.Some? then RemoveGift(map[items[gift.value].key := 0])
        else NoRequest
  {
    ShouldHaveGiftIsThreshold(items, giftId);
  }

  // ---------------------------------------------------------------------------
  // The manual-removal flag

  /** The cart drawer's events; each carries the cart after the change. */
  datatype CartEvent =
    | ItemAdded(cart: seq<LineItem>)
    | ItemRemoved(removed: LineItem, cart: seq<LineItem>)
    | CartUpdated(cart: seq<LineItem>)

  /** The request issued and the flag afterwards. */
  datatype Reaction = Reaction(request: Request, manuallyRemoved: bool)

  /** `updateFreeGift` run to completion: the flag is cleared only after a
      request that succeeded. */
  function GiftUpdate(items: seq<LineItem>, giftId: int, manuallyRemoved: bool, succeeded: bool): (r: Reaction)
    ensures r.request == Decide(items, giftId, manuallyRemoved)
    ensures r.manuallyRemoved == (manuallyRemoved && (r.request.NoRequest? || !succeeded))
  {
    var request := Decide(items, giftId, manuallyRemoved);
    Reaction(request, if !request.NoRequest? && succeeded then false else manuallyRemoved)
  }

  /** The three `window` listeners. */
  function OnEvent(manuallyRemoved: bool, event: CartEvent, giftId: int, succeeded: bool): (r: Reaction)
    ensures event.ItemRemoved? && IsGift(event.removed, giftId) ==> r == Reaction(NoRequest, true)
    ensures event.ItemAdded? || (event.ItemRemoved? && !IsGift(event.removed, giftId)) ==>
              r == Reaction(Decide(event.cart, giftId, false), false)
    ensures event.CartUpdated? ==> r.request == Decide(event.cart, giftId, manuallyRemoved)
    ensures event.CartUpdated? ==> r.manuallyRemoved == (manuallyRemoved && (r.request.NoRequest? || !succeeded))
    ensures r.manuallyRemoved ==>
              (event.ItemRemoved? && IsGift(event.removed, giftId))
              || (event.CartUpdated? && manuallyRemoved && (r.request.NoRequest? || !succeeded))
  {
    match event
    case ItemAdded(cart) => GiftUpdate(cart, giftId, false, succeeded)
    case ItemRemoved(removed, cart) =>
      if IsGift(removed, giftId) then Reaction(NoRequest, true)
      else GiftUpdate(cart, giftId, false, succeeded)
    case CartUpdated(cart) => GiftUpdate(cart, giftId, manuallyRemoved, succeeded)
  }

  /** Events applied in order, each with the outcome of its request. */
  function RunEvents(manuallyRemoved: bool, events: seq<CartEvent>, outcomes: seq<bool>, giftId: int): (rs: seq<Reaction>)
    requires |outcomes| == |events|
    ensures |rs| == |events|
    decreases |events|
  {
    if events == [] then []
    else
      var r := OnEvent(manuallyRemoved, events[0], giftId, outcomes[0]);
      [r] + RunEvents(r.manuallyRemoved, events[1..], outcomes[1..], giftId)
  }

  /** After the shopper removes the gift, cart-updated events alone never add
      it back as long as none of their carts holds a gift line (a cart that
      does and is not eligible gets a removal request, whose success clears
      the flag). */
  lemma {:induction false} ManualRemovalSticks(events: seq<CartEvent>, outcomes: seq<bool>, giftId: int)
    requires |outcomes| == |events|
    requires forall i :: 0 <= i < |events| ==> events[i].CartUpdated?
    requires forall i :: 0 <= i < |events| ==> FindGift(events[i].cart, giftId).None?
    ensures forall i :: 0 <= i < |events| ==> RunEvents(true, events, outcomes, giftId)[i] == Reaction(NoRequest, true)
    decreases |events|
  {
    if events != [] {
      var rs := RunEvents(true, events, outcomes, giftId);
      var r := OnEvent(true, events[0], giftId, outcomes[0]);
      assert r == Reaction(NoRequest, true);
      ManualRemovalSticks(events[1..], outcomes[1..], giftId);
      assert rs == [r] + RunEvents(true, events[1..], outcomes[1..], giftId);
      forall i | 0 <= i < |events| ensures rs[i] == Reaction(NoRequest, true) {
        if i > 0 {
          assert rs[i] == RunEvents(true, events[1..], outcomes[1..], giftId)[i - 1];
        }
      }
    }
  }

  /** The flag does not outlive a successful removal request: a cart-updated
      event whose cart holds a gift line but is not eligible clears it, and a
      later cart-updated event with an eligible cart and no gift line adds
      the gift again. */
  lemma ReAddAfterRemoval(first: seq<LineItem>, second: seq<LineItem>, giftId: int)
    requires !ShouldHaveGift(first, giftId) && FindGift(first, giftId).Some?
    requires ShouldHaveGift(second, giftId) && FindGift(second, giftId).None?
    ensures var rs := RunEvents(true, [CartUpdated(first), CartUpdated(second)], [true, true], giftId);
      rs[0].request.RemoveGift? && !rs[0].manuallyRemoved && rs[1].request.AddGift?
  {
    var events := [CartUpdated(first), CartUpdated(second)];
    var rs := RunEvents(true, events, [true, true], giftId);
    var r0 := OnEvent(true, events[0], giftId, true);
    assert r0.request.RemoveGift? && !r0.manuallyRemoved;
    assert events[1..] == [CartUpdated(second)];
    assert [true, true][1..] == [true];
    assert rs == [r0] + RunEvents(false, [CartUpdated(second)], [true], giftId);
    assert rs[1] == OnEvent(false, CartUpdated(second), giftId, true);
  }

  // ---------------------------------------------------------------------------
  // The object

  /** The module-level `isGiftManuallyRemoved` and the listeners that use it. */
  class GiftSession {
    /** `GIFT_PRODUCT_ID`. */
    const giftId: int
    var isGiftManuallyRemoved: bool

    constructor (giftId: int)
      ensures this.giftId == giftId && !isGiftManuallyRemoved
    {
      this.giftId := giftId;
      isGiftManuallyRemoved := false;
    }

    /** `updateFreeGift`, with `succeeded` standing for the outcome of the
        request it sends. */
    method UpdateFreeGift(items: seq<LineItem>, succeeded: bool) returns (request: Request)
      modifies this`isGiftManuallyRemoved
      ensures Reaction(request, isGiftManuallyRemoved) == GiftUpdate(items, giftId, old(isGiftManuallyRemoved), succeeded)
    {
      request := Decide(items, giftId, isGiftManuallyRemoved);
      if !request.NoRequest? && succeeded {
        isGiftManuallyRemoved := false;
      }
    }

    /** The `kaching-cart:item-added` listener. */
    method OnItemAdded(cart: seq<LineItem>, succeeded: bool) returns (request: Request)
      modifies this`isGiftManuallyRemoved
      ensures Reaction(request, isGiftManuallyRemoved) == OnEvent(old(isGiftManuallyRemoved), ItemAdded(cart), giftId, succeeded)
    {
      isGiftManuallyRemoved := false;
      request := UpdateFreeGift(cart, succeeded);
    }

    /** The `kaching-cart:item-removed` listener. */
    method OnItemRemoved(removed: LineItem, cart: seq<LineItem>, succeeded: bool) returns (request: Request)
      modifies this`isGiftManuallyRemoved
      ensures Reaction(request, isGiftManuallyRemoved) == OnEvent(old(isGiftManuallyRemoved), ItemRemoved(removed, cart), giftId, succeeded)
    {
      if removed.id == giftId && IsTrue(removed, "_gift_product") {
        isGiftManuallyRemoved := true;
        return NoRequest;
      }
      isGiftManuallyRemoved := false;
      request := UpdateFreeGift(cart, succeeded);
    }

    /** The `kaching-cart:cart-updated` listener. */
    method OnCartUpdated(cart: seq<LineItem>, succeeded: bool) returns (request: Request)
      modifies this`isGiftManuallyRemoved
      ensures Reaction(request, isGiftManuallyRemoved) == OnEvent(old(isGiftManuallyRemoved), CartUpdated(cart), giftId, succeeded)
    {
      request := UpdateFreeGift(cart, succeeded);
    }
  }
}
