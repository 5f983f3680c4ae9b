# Bundle builder and free-gift rules, in Dafny

This project models two pieces of a Shopify theme's storefront scripts.

**The bundle builder** (`BundleManager`, assets/biscuits-bundle-manager.js).
A shopper fills a row of `maxItems` slots with product variants.
- `selectedItems` is an array of optional items, one per slot.
- `activeSlotIndex` is the cursor: the slot that receives the next selection.
- `isProcessing` drops any selection that arrives while one is being handled.
- Selecting a variant that is already in a slot empties that slot.
- Selecting a new variant writes it into the active slot, but only if that slot exists and is empty. The cursor then moves to the lowest empty slot.
- Clicking a trigger card moves the cursor there.
- `render` draws every trigger card on the page: card `i` shows slot `i`, and a card beyond the last slot is drawn empty. The number of cards need not equal `maxItems`. Add-to-cart is disabled until every slot is filled. The price box appears once any slot is filled.
- `formatMoney` renders an integer number of cents through a money template such as `${{amount}}`.

**The free gift** (assets/kaching-cart-drawer.js).
- On every cart event except the shopper's removal of the gift line, `updateFreeGift` checks the cart snapshot.
- The cart is eligible when it has a line from a landing page, a line that is not a gift line, and landing-page lines other than gift lines totalling at least 5000 cents.
- It adds the gift product when the cart is eligible, holds no gift line, and the gift was not removed by hand.
- It removes the first gift line when the cart is not eligible but holds one.
- The flag `isGiftManuallyRemoved` records that the shopper removed the gift by hand. While the flag is set, no gift is added.

The files:
- `wrappers.dfy`: the `Option` type. It stands for JavaScript's `null`, `undefined` and "not found".
- `money.dfy` (module `Money`): `formatMoney` as pure functions, with a reference reader `ParseAmount` that reads a formatted amount back into cents.
- `bundle.dfy` (module `Bundle`): the specification of the slot engine as a datatype `Engine` with functions over it. The class `BundleManager` holds the array and the two fields, updates them in place, and is proved to follow that specification.
- `free_gift.dfy` (module `FreeGift`): the gift decision as functions over a cart snapshot, and the flag's transitions. The class `GiftSession` holds the flag and is proved to follow them. The outcome of each network request (success or failure) is an input.

Integer cents make `Math.round` the identity, so `toFixed` is written out with integer division and remainder:
- Two decimals print the cents exactly.
- No decimals round half away from zero.
- A negative amount always gets its minus sign. With no decimals, -4 cents prints `-0`, as `toFixed` does.

The placeholder regular expression `\{\{\s*(\w+)\s*\}\}` is matched leftmost and greedily. White space and word characters are disjoint classes, so no other reading exists. `\s` is the ECMAScript white-space and line-terminator set.

The formatted amount contains only digits, separators and `-`. So `replace` inserts it literally.

## Model

| member | source | states |
|---|---|---|
| Money.Digits | assets/biscuits-bundle-manager.js:152 | the decimal digits of a whole number: at least one digit, and a leading zero only for 0, which is the single digit `0` |
| Money.ValueOfDigits | assets/biscuits-bundle-manager.js:152 | the digits read back as the number they were printed from |
| Money.Pad2 | assets/biscuits-bundle-manager.js:152 | the cents part always has exactly two digits |
| Money.ValueOfPad2 | assets/biscuits-bundle-manager.js:152 | the two cents digits read back as the cents |
| Money.Group | assets/biscuits-bundle-manager.js:154 | grouping never shortens the digits and keeps the leading digit first |
| Money.UngroupGroup | assets/biscuits-bundle-manager.js:154 | deleting the thousands separators from the grouped digits gives back the digits |
| Money.GroupLayout | assets/biscuits-bundle-manager.js:154 | a separator goes before every third digit counted from the right, and nowhere else; the grouped text has (digits-1)/3 more characters |
| Money.FormatWithDelimiters | assets/biscuits-bundle-manager.js:149-158 | `null` and `NaN` give `0`; an amount gives a non-empty text that starts with `-` exactly when it is negative (the exact text is the composition in its body, broken down by TwoDecimalsShape and NoDecimalsShape into sign, Digits, Group and Pad2, whose own rows give each part; the round-trip and swap lemmas below do not by themselves fix the grouping) |
| Money.FormatTwoDecimalsRoundTrip | assets/biscuits-bundle-manager.js:149-158 | with two decimals, the text reads back as exactly the input cents, negative amounts included, for either separator pair |
| Money.FormatNoDecimalsRounds | assets/biscuits-bundle-manager.js:152-157 | with no decimals, the text reads back as a whole unit within half a unit of the input, with ties rounded away from zero |
| Money.SwapTwoDecimals | assets/biscuits-bundle-manager.js:170-171 | `amount_with_comma_separator` is `amount` with `.` and `,` exchanged |
| Money.SwapNoDecimals | assets/biscuits-bundle-manager.js:173-174 | `amount_no_decimals_with_comma_separator` is `amount_no_decimals` with `.` and `,` exchanged |
| Money.CommaSeparatorSwaps | assets/biscuits-bundle-manager.js:149-175 | for every input (null and NaN included), the comma-separator output is the plain output with `.` and `,` exchanged |
| Money.IsSpace | assets/biscuits-bundle-manager.js:146 | the model's `\s`: the ECMAScript white-space and line-terminator characters |
| Money.IsWordChar | assets/biscuits-bundle-manager.js:146 | the model's `\w`: ASCII letters, digits and `_` |
| Money.SkipSpaces | assets/biscuits-bundle-manager.js:146 | `\s*` consumes the maximal run of white space |
| Money.SkipWord | assets/biscuits-bundle-manager.js:146 | `(\w+)` captures the maximal run of word characters |
| Money.MatchAt | assets/biscuits-bundle-manager.js:146 | a match starting at a position spans at least `{{x}}`, and is laid out as `{{`, white space, the captured word, white space, `}}` |
| Money.MatchAtLayout | assets/biscuits-bundle-manager.js:146 | conversely, every text laid out as `{{`, white space, a word, white space, `}}` is matched and its word captured |
| Money.FindPlaceholder | assets/biscuits-bundle-manager.js:160 | `match` finds the leftmost placeholder; no match starts before it, and with no result no position matches |
| Money.Template | assets/biscuits-bundle-manager.js:147 | a missing or empty template becomes `${{amount}}`; any other template is kept |
| Money.StyleOf | assets/biscuits-bundle-manager.js:163-178 | the two `no_decimals` keys, and only they, drop the decimals; the two `with_comma_separator` keys, and only they, use `.` for thousands and `,` for decimals; any other key formats like `amount` |
| Money.KeyValue | assets/biscuits-bundle-manager.js:163-178 | for every key, `null` and `NaN` give `0`; an amount gives a text that starts with `-` exactly when it is negative |
| Money.FormatMoney | assets/biscuits-bundle-manager.js:160-161 | a template without a placeholder is returned unchanged |
| Money.NoPlaceholderUnchanged | assets/biscuits-bundle-manager.js:160-161 | a non-empty template in which no position matches the placeholder is returned as it is |
| Money.FalsyTemplateDefaults | assets/biscuits-bundle-manager.js:147 | a missing template, an empty template and `${{amount}}` give the same text |
| Money.MatchAtKey | assets/biscuits-bundle-manager.js:146 | `{{key}}` with a word key, written without spaces, matches and captures that key |
| Money.FirstPlaceholderReplaced | assets/biscuits-bundle-manager.js:160-180 | in `prefix{{key}}suffix`, where the prefix has no `{`, only that first placeholder is replaced: by the amount in that key's style, with the suffix kept verbatim even if it holds more placeholders |
| Money.DollarAmountTemplate | assets/biscuits-bundle-manager.js:147-165 | the default template gives `$` followed by the `amount` rendering |
| Money.ExampleAmount | assets/biscuits-bundle-manager.js:164-165 | 123456 cents with `${{amount}}` gives `$1,234.56` |
| Money.ExampleNoDecimals | assets/biscuits-bundle-manager.js:167-168 | 123456 cents with `${{amount_no_decimals}}` gives `$1,235` |
| Money.ExampleZeroAndNull | assets/biscuits-bundle-manager.js:150 | 0 cents gives `$0.00`, while `null` gives the bare `$0` |
| Bundle.IndexOf | assets/biscuits-bundle-manager.js:65 | the first occurrence of a pattern at or after a position, or none at all |
| Bundle.RemoveFirst | assets/biscuits-bundle-manager.js:65 | `replace` with a string pattern cuts out exactly the first occurrence when there is one, and otherwise changes nothing |
| Bundle.OrDefault | assets/biscuits-bundle-manager.js:68-69 | `value \|\| fallback`: a missing value or 0 gives the fallback; any other value is kept |
| Bundle.NewItem | assets/biscuits-bundle-manager.js:64-70 | the new item's title has "Default Title" removed once; its quantity is the given one, or 1 when that is falsy, so never 0; its price is the given one, or 0 when that is falsy |
| Bundle.DefaultVariantTitleDropped | assets/biscuits-bundle-manager.js:65 | for a single-variant product whose title does not itself contain "Default Title", the item title is the product title followed by a space |
| Bundle.IndexOfVariant | assets/biscuits-bundle-manager.js:53 | `findIndex`: the first slot that holds the variant, or none |
| Bundle.FirstEmpty | assets/biscuits-bundle-manager.js:85 | `findIndex`: the first empty slot, or none when every slot is filled |
| Bundle.NextActive | assets/biscuits-bundle-manager.js:84-89 | the cursor goes to the lowest empty slot when there is one, and stays where it was when every slot is filled |
| Bundle.Initial | assets/biscuits-bundle-manager.js:5-8 | a new manager has `maxItems` empty slots, cursor 0, and is not processing |
| Bundle.Select | assets/biscuits-bundle-manager.js:47-82 | the specification of a selection: the slot count is kept, a selection while processing changes nothing, and afterwards the manager is processing; its effect on the slots is stated by the lemmas below |
| Bundle.ClickCard | assets/biscuits-bundle-manager.js:39-44 | a click moves the cursor to the card and changes nothing else |
| Bundle.Release | assets/biscuits-bundle-manager.js:79-81 | the timer ends processing and changes nothing else |
| Bundle.SelectWhileProcessing | assets/biscuits-bundle-manager.js:48-50 | a selection that arrives while one is being handled changes nothing |
| Bundle.SelectKeepsInvariant | assets/biscuits-bundle-manager.js:5-75 | every selection keeps the number of slots, and keeps every variant in at most one slot |
| Bundle.DeselectClearsOnlyThatSlot | assets/biscuits-bundle-manager.js:53-58 | selecting a variant that is in a slot empties exactly that slot and leaves the cursor in place |
| Bundle.SelectChangesOneSlot | assets/biscuits-bundle-manager.js:53-75 | at most one slot changes: either the active slot, which was empty, receives the new item of a variant held nowhere; or the slot that held the variant becomes empty |
| Bundle.OccupiedActiveSlotRefuses | assets/biscuits-bundle-manager.js:60-75 | a new variant with the active slot filled or beyond the array leaves slots and cursor as they were |
| Bundle.WriteAdvancesToLowestEmpty | assets/biscuits-bundle-manager.js:72-89 | after a write the cursor is on the lowest empty slot when one exists, and stays where it was when all are filled |
| Bundle.FilledCount | assets/biscuits-bundle-manager.js:132 | the filled count is 0 exactly when every slot is empty, and equals the slot count exactly when every slot is filled |
| Bundle.FilledCountUpdate | assets/biscuits-bundle-manager.js:132 | setting one slot moves the filled count by that slot's change |
| Bundle.SelectMovesCountByOne | assets/biscuits-bundle-manager.js:53-75 | a deselection lowers the filled count by one; a write raises it by one |
| Bundle.ViewOf | assets/biscuits-bundle-manager.js:110-141 | one card per trigger card, filled exactly when its slot holds an item; a quantity badge exactly when the quantity exceeds 1; add-to-cart disabled exactly when some slot is empty; the price box visible exactly when some slot is filled |
| Bundle.RunKeepsInvariant | assets/biscuits-bundle-manager.js:39-82 | any sequence of selections, card clicks and timer releases keeps the slot count, keeps variants unique, and never fills more than `maxItems` slots |
| Bundle.RunKeepsCursorInRange | assets/biscuits-bundle-manager.js:39-89 | when there are no more trigger cards than slots, the cursor always stays on a slot |
| Bundle.Subtract | assets/biscuits-bundle-manager.js:96 | `compareAt - total` on numbers is their difference; `NaN` on either side gives `NaN` |
| Bundle.PriceUpdate | assets/biscuits-bundle-manager.js:91-108 | without the form nothing is written; otherwise the savings text is `compareAt - total` through the form's template |
| Bundle.SavingsReadsBack | assets/biscuits-bundle-manager.js:96-106 | with the default template the savings text is `$` followed by an amount that reads back as exactly `compareAt - total` |
| Bundle.SavingsIsDollarAmount | assets/biscuits-bundle-manager.js:96-106 | with the default template the savings text is exactly `$` followed by the two-decimal, comma-grouped rendering of `compareAt - total` |
| Bundle.BundleManager.constructor | assets/biscuits-bundle-manager.js:2-8 | a fresh array of `maxItems` empty slots, cursor 0, not processing |
| Bundle.BundleManager.FindVariantSlot | assets/biscuits-bundle-manager.js:53 | the loop returns the first slot holding the variant, or -1 |
| Bundle.BundleManager.AdvanceToNextEmptySlot | assets/biscuits-bundle-manager.js:84-89 | the cursor moves to the lowest empty slot; it is unchanged when all slots are filled |
| Bundle.BundleManager.HandleProductSelection | assets/biscuits-bundle-manager.js:47-82 | the array and fields after the call are `Select` of the state before, uniqueness is kept, and a handled selection re-renders |
| Bundle.BundleManager.ClickCard | assets/biscuits-bundle-manager.js:39-44 | the cursor moves to the clicked card, with no condition, and the row re-renders |
| Bundle.BundleManager.Release | assets/biscuits-bundle-manager.js:79-81 | the timer callback ends processing |
| Bundle.BundleManager.Render | assets/biscuits-bundle-manager.js:110-141 | the two loops compute exactly `ViewOf` of the current array |
| FreeGift.IsGift | assets/kaching-cart-drawer.js:11 | a gift line is the gift product with `_gift_product` equal to the string `'true'` |
| FreeGift.FindGift | assets/kaching-cart-drawer.js:11 | `find`: the first gift line, or none when no line is a gift line |
| FreeGift.HasLandingPageItem | assets/kaching-cart-drawer.js:10 | `some` over the lines marked `_from_landing_pages`; PositiveTotalHasLandingLine and ShouldHaveGiftIsThreshold relate it to the total |
| FreeGift.NonGiftItems | assets/kaching-cart-drawer.js:13 | the filtered cart holds no gift line and is no longer than the cart; NonGiftMembers and NonGiftAppend state the rest |
| FreeGift.NonGiftMembers | assets/kaching-cart-drawer.js:13 | the filter keeps exactly the lines that are not gift lines |
| FreeGift.NonGiftAppend | assets/kaching-cart-drawer.js:13 | filtering a joined cart joins the filtered parts |
| FreeGift.LandingTotalAppend | assets/kaching-cart-drawer.js:16-21 | the landing-page total of a joined cart is the sum of the parts' totals |
| FreeGift.LandingTotal | assets/kaching-cart-drawer.js:16-21 | the `reduce` as a left fold over `price * quantity` of landing-page lines; LandingTotalAppend makes it additive, and PositiveTotalHasLandingLine makes it non-negative on non-negative lines |
| FreeGift.PriceWithoutGift | assets/kaching-cart-drawer.js:13-21 | the landing-page total of the non-gift lines; GiftLineDoesNotCount states that gift lines never change it |
| FreeGift.ShouldHaveGift | assets/kaching-cart-drawer.js:23 | the conjunction of the three conditions; ShouldHaveGiftIsThreshold reduces it to the threshold on non-negative lines |
| FreeGift.GiftLineDoesNotCount | assets/kaching-cart-drawer.js:13-21 | inserting a gift line anywhere leaves `priceWithoutGift` unchanged |
| FreeGift.PositiveTotalHasLandingLine | assets/kaching-cart-drawer.js:10-21 | with no negative line values, the total is non-negative, and a positive total implies some landing-page line |
| FreeGift.ShouldHaveGiftIsThreshold | assets/kaching-cart-drawer.js:10-23 | with no negative line values, `shouldHaveGift` holds exactly when `priceWithoutGift >= 5000` |
| FreeGift.Decide | assets/kaching-cart-drawer.js:10-74 | an add is issued exactly when the cart is eligible, has no gift line and the flag is clear; a removal exactly when it is not eligible and has a gift line; the add carries one line (the gift id, quantity 1, `_gift_product: 'true'`); the removal sets the first gift line's key to 0 |
| FreeGift.SettledCartsCauseNoRequest | assets/kaching-cart-drawer.js:25-53 | an eligible cart that holds the gift, and an ineligible cart without it, cause no request |
| FreeGift.DecideByThreshold | assets/kaching-cart-drawer.js:10-74 | with no negative line values, the decision depends only on the threshold, the first gift line and the flag |
| FreeGift.GiftUpdate | assets/kaching-cart-drawer.js:25-74 | the request is the decision; the flag is cleared only by a request that succeeded, and a failed or absent request leaves it as it was |
| FreeGift.OnEvent | assets/kaching-cart-drawer.js:77-93 | removing the gift line sets the flag and decides nothing; item-added, or removing any other line, clears the flag and then decides; cart-updated decides with the flag as it is, and keeps it unless a request was sent and succeeded |
| FreeGift.ManualRemovalSticks | assets/kaching-cart-drawer.js:82-93 | after a manual removal, cart-updated events whose carts hold no gift line never request anything and keep the flag set |
| FreeGift.ReAddAfterRemoval | assets/kaching-cart-drawer.js:53-93 | a successful removal request during a cart-updated event clears the flag, so a later cart-updated event can add the gift again |
| FreeGift.GiftSession.constructor | assets/kaching-cart-drawer.js:1-3 | the flag starts cleared |
| FreeGift.GiftSession.UpdateFreeGift | assets/kaching-cart-drawer.js:5-75 | the request and the new flag are those of `GiftUpdate` |
| FreeGift.GiftSession.OnItemAdded | assets/kaching-cart-drawer.js:77-80 | the request and the new flag are those of `OnEvent` for item-added |
| FreeGift.GiftSession.OnItemRemoved | assets/kaching-cart-drawer.js:82-89 | the request and the new flag are those of `OnEvent` for item-removed |
| FreeGift.GiftSession.OnCartUpdated | assets/kaching-cart-drawer.js:91-93 | the request and the new flag are those of `OnEvent` for cart-updated |

## Left out

- The DOM is not modelled:
  - the element lookups and the listener wiring (`init`, `initListeners`);
  - the `innerHTML` markup and `classList` toggles, reduced to the `View` value;
  - the per-element presence checks in `render` and `handlePriceUpdate`;
  - the product image lookup, whose URL is a parameter.
- `console.log` and `console.error` are not modelled.
- The number of trigger cards on the page is a constructor parameter (`cardCount`). A card click carries an index below it, as only existing cards have a listener.
- `initializeBundleManager` parses `maxItems` from a DOM attribute. The model takes `maxItems >= 1` as given. A negative attribute would make the `Array` constructor throw; that case is not modelled.
- The 100 ms `setTimeout` that ends processing is the separate `Release` operation. Its timing is not modelled, and it may come at any point of a command sequence.
- `formatMoney` with a string argument (`cents.replace('.', '')`) is not modelled. Amounts are integer cents, `null` or `NaN`. `undefined` and plain objects behave as `NaN`.
- Values that `isNaN` and `Math.round` coerce to numbers are not modelled: booleans (`true` prints `0.01`), arrays (`[]` prints `0.00`) and numeric strings.
- Non-integer amounts are not modelled, so there is no `Math.round`. Nor are amounts of 2^46 units (about 7.04·10^15 cents) or more. From there on, `cents / 100.0` as a double can fall more than half a cent from the exact value, so the printed cents can differ (7036874417766401 cents prints `…664.02`, not `…664.01`). `toFixed`'s exponent form at 10^21 is not modelled either.
- Selection fields other than numbers, `null` and `NaN`, such as numeric strings, are not modelled.
- Money.FormatMoney: its own contract covers only the template without a placeholder. The placeholder case is stated by FirstPlaceholderReplaced, for templates whose text before the placeholder has no `{` and whose placeholder has no inner white space.
- The `fetch` calls to `cart/add.js` and `cart/update.js`, with their JSON bodies and responses, are not modelled. Each request's outcome is a boolean input.
- Events that overlap a pending request are not modelled. Each request completes before the next event.
- Cart line `properties` values are strings in the model. A non-string value never equals `'true'`, so it behaves like any other string.
- `GIFT_PRICE` is read but never used. `GIFT_PRODUCT_ID` is a parameter.
- FreeGift.ManualRemovalSticks: states that cart-updated events never re-add the gift only for carts without a gift line. A successful removal request during a cart-updated event clears the flag (assets/kaching-cart-drawer.js:70). ReAddAfterRemoval shows the re-add that follows.
- assets/uc-button-fix.js and assets/biscuits-bundle-modal.js are not part of this model. They only restyle and toggle page elements.
- Lock markers on slots, and slots pre-filled when the page loads, do not exist in this code and are not modelled.
