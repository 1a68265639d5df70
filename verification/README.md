# The Kira front end, in Dafny

KiraRoom is a booking and till system for hair and beauty salons. These files
model the logic its Next.js front end works out by itself, and prove what that
logic is for: money that adds up to the cent, text that is read back as it was
written, days and hours that cover what was recorded, and protocols that stay
safe whatever order their steps come in.

Money is whole cents. Rates, percentages and typed quantities are exact reals,
and `Math.round` is floor(x + 1/2) (section 21.3.2.28 of ECMA-262). Code that
works by loops or by updating fields is a method or a class here, proved
against a function; code made of expressions is a function. Code that runs
between two awaits is one step of a machine, and a run is any sequence of
steps.

| File | What it models |
|---|---|
| `Allocation.dfy`, `Discounts.dfy` | splitting a ticket discount over the lines; line and ticket discounts, what is refused, the staff limit |
| `Cart.dfy` | the till's ticket, and the map of units it stands for |
| `Euros.dfy`, `Tenders.dfy` | typed amounts; how a ticket is paid, and the form for it |
| `Refunds.dfy` | refunding a sale line by units over several visits |
| `Invoices.dfy` | invoice amounts, tax on top or included, the prices clients see |
| `WebAddress.dfy` | the web address made from a salon's name |
| `ChatInline.dfy`, `ChatBlocks.dfy` | the receptionist's replies: bold text, paragraphs, lists, headings |
| `ImportErrors.dfy` | rejected import rows as CSV, with a reader for section 2 of RFC 4180 |
| `Calendar.dfy`, `TimeOff.dfy`, `ClosedDays.dfy` | Gregorian day numbers; absences; runs of closed days |
| `SalonHours.dfy` | opening hours read and merged |
| `RefreshProtocol.dfy` | the API client's shared session refresh |
| `LookupCache.dfy` | the middleware's bounded caches |
| `Booking.dfy` | the booking form's location, service and professional |
| `Common.dfy`, `Arithmetic.dfy`, `Rounding.dfy`, `Sorting.dfy`, `Text.dfy` | shared vocabulary and facts |

Run `dafny verify dfyconfig.toml` to verify it all.

## What was found

Some properties one would expect do not hold of the code. For each of these
there is a concrete input, and where it can be said as one condition on the
input, a proof of exactly when the property does hold.

- A booking link pins a professional. Booking again puts her back without
  asking whether she works at the location that was kept: the form stays
  consistent if and only if she does (`Booking.StepKeepsConsistent`), and
  otherwise picking one of her services asks for her at a place she does not
  work (`Booking.MisfitPinIsKept`, with a salon in
  `Booking.PinnedAtAnotherLocation`). Every run from a link is safe if and only
  if it pins nobody, the salon has no location step, or she works at every
  location (`Booking.PinsAreSafeExactlyWhen`).
- The widget narrows by location first and by service second, the page the
  other way round. The lists agree if and only if the page's list is not empty
  or nobody is here (`Booking.ListsAgree`); before a location is picked, a
  service only someone without a location does is offered with everybody
  (`Booking.WidgetOffersAnyone`).
- The middleware keeps the answer that arrived last, not the one asked for
  last. Two overlapping lookups of a key can leave the older answer
  (`LookupCache.OverlapGoesBack`); without overlap they cannot
  (`LookupCache.WithoutOverlapNewestIsKept`).
- On a free ticket the tenders sent are refused when all amounts are zero and
  the first is a gift card, whose code is then not sent, and only then
  (`Tenders.ServerOnFreeTicket`).
- Years before 100 break `addDays`: such a day moved by nothing moves by
  centuries (`TimeOff.TwoDigitYears`).
- A tax-included price taxed again from its base comes back within one cent,
  whatever the price, if and only if the rate is at most 200 %
  (`Invoices.RetaxIsWithinOneCent`): above that some price comes back two cents
  higher (`Invoices.RetaxOffByTwo`).
- A negative tax rate counts as none in the prices clients see and is applied on
  the invoice; `Invoices.ClientPriceIsInvoiced` and `Invoices.ExampleIsInvoiced`
  say exactly when the two agree all the same.
- The staff limit compares with a tolerance of 1e-9. Percentages can never use
  it (`Discounts.PercentsWithinTwoCents`); only an amount of money off the line
  or the ticket can, and only on a line of more than 100,000 euros
  (`Discounts.StaffLimitWithinTwoCents`). `Discounts.ToleranceShows` gives the
  line amounts on which a fixed discount of whole cents does, which begin near
  two thousand million cents.
- A quantity between 0 and 1 leaves a line of no units
  (`Cart.FractionLeavesEmptyLine`).
- Two services, or two products, can come under one key if and only if the id of
  one, with a colon, begins the id of the other (`Cart.ItemsThatShareAKey`); a
  colon in a professional's id does no harm.
- Giving a line to someone who has a line of the same item drops its discount
  (`Cart.MovedDiscount`).

## Model

| member | source | states |
|---|---|---|
| Allocation.SharesAddUp | packages/frontend/lib/pos-discounts.ts:75-90 | the shares of a positive total over positive weights add up to exactly the total; otherwise nothing is handed out |
| Allocation.SharesMeetQuota | packages/frontend/lib/pos-discounts.ts:78-89 | each share is its exact quota rounded down or up, a zero weight gets nothing, and no share exceeds its weight while the total fits |
| Allocation.SharesFollowWeights | packages/frontend/lib/pos-discounts.ts:81-88 | a heavier line never gets less than a lighter one; of equal lines the earlier never gets less |
| Allocation.LargestRemainderFirst | packages/frontend/lib/pos-discounts.ts:81-88 | the left-over cents go to the lines whose quota was cut most, and of two cut alike to the earlier |
| Allocation.AllocateCents | packages/frontend/lib/pos-discounts.ts:75-90 | the loop that hands out the left-over cents computes those shares |
| Discounts.DiscountWithinBase | packages/frontend/lib/pos-discounts.ts:65-72 | whatever the spec, refused or not, a discount is between nothing and the base |
| Discounts.DiscountNearRate | packages/frontend/lib/pos-discounts.ts:65-72 | an accepted discount is its rate of the base to the nearest cent, a half going up |
| Discounts.AcceptedIsARate | packages/frontend/lib/pos-discounts.ts:145-151 | a discount is accepted exactly when its rate of the base is between 0 and 1, percentage and fixed alike |
| Discounts.RefusalNamesTheEnd | packages/frontend/lib/pos-discounts.ts:145-151 | what is refused is refused for the end its rate is beyond, as a percentage or as an amount |
| Discounts.OverdoneTakesAll | packages/frontend/lib/pos-discounts.ts:65-72 | a percentage of 100 or more, or an amount of the base or more, takes all of the base |
| Discounts.TicketTakesItsDiscounts | packages/frontend/lib/pos-discounts.ts:92-120 | every figure of the ticket: prices times quantities, each line's discount at its rate of its own amount, the ticket's at its rate of what those leave, each to the nearest cent, and all of the base when overdone |
| Discounts.TicketAddsUp | packages/frontend/lib/pos-discounts.ts:92-120 | the line nets add up to the ticket's total, no line goes below zero, and net, share and own discount add up to each line's gross |
| Discounts.LineWithinStackedRate | packages/frontend/lib/pos-discounts.ts:92-120 | a line's two discounts together stay below the two rates stacked, plus two cents, carrying the rounding of line, ticket and share |
| Discounts.StaffLimitHolds | packages/frontend/lib/pos-discounts.ts:160-183 | when the staff limit lets a ticket through, each line loses at most the allowed percent plus the check's tolerance and two cents, for any number of lines |
| Discounts.PercentsLetThrough | packages/frontend/lib/pos-discounts.ts:160-183 | on percentages, exactly which tickets the limit lets through: nothing is taken off, or every line keeps at least what the limit leaves of it |
| Discounts.WholeLimit | packages/frontend/lib/pos-discounts.ts:167 | the limit counts in whole percents, between 0 and 100 |
| Discounts.WhoMayNotDiscount | packages/frontend/lib/pos-discounts.ts:166-181 | under one percent nothing may be discounted; otherwise a refusal names the whole percent allowed, and something was taken off |
| Discounts.PercentsWithinTwoCents | packages/frontend/lib/pos-discounts.ts:160-183 | with percentages on the line and the ticket, each line loses less than the allowed percent plus two cents, for any number of lines of any amount |
| Discounts.StaffLimitWithinTwoCents | packages/frontend/lib/pos-discounts.ts:160-183 | the two cents are the whole of the error unless an amount of money is taken off the line or the ticket and the line is over 100,000 euros |
| Discounts.FixedLetThrough | packages/frontend/lib/pos-discounts.ts:176-180 | in whole numbers, exactly which fixed discounts of one line the limit lets through |
| Discounts.ToleranceShows | packages/frontend/lib/pos-discounts.ts:178 | exactly for which line amounts some fixed discount passes the limit and is over the percent by more than two cents |
| Discounts.ToleranceOnHugeLine | packages/frontend/lib/pos-discounts.ts:178 | a line on which the tolerance lets through ten thousand cents more |
| Discounts.StaffLimitProblem | packages/frontend/lib/pos-discounts.ts:160-183 | the loop with early return finds whether some line is over the limit |
| Cart.KeysTellLinesApart | packages/frontend/lib/pos-cart.ts:46-51 | services and products without a colon in their ids, and appointments, never share a key, whoever did them |
| Cart.ItemsThatShareAKey | packages/frontend/lib/pos-cart.ts:46-51 | two items can come under one key if and only if both are services or both products and one's id, with a colon, begins the other's |
| Cart.ColonConfusesKeys | packages/frontend/lib/pos-cart.ts:49 | two products that do |
| Cart.AddRefines | packages/frontend/lib/pos-cart.ts:54-62 | adding a line adds its units at its item and professional and nowhere else; an appointment stays at one |
| Cart.RemoveRefines | packages/frontend/lib/pos-cart.ts:70-72 | removing a line removes its entry only |
| Cart.SetRefines | packages/frontend/lib/pos-cart.ts:65-68 | setting a quantity sets that entry, rounded down, or removes it |
| Cart.ReassignRefines | packages/frontend/lib/pos-cart.ts:78-88 | changing who did a line moves its units, joined to those already there |
| Cart.AddLeaves | packages/frontend/lib/pos-cart.ts:54-62 | a new line is put at the end as it was given; a known one changes its quantity and nothing else |
| Cart.SetLeaves | packages/frontend/lib/pos-cart.ts:65-72 | setting a quantity changes that of one line at most, or takes the line out and leaves the others in order |
| Cart.ReassignLeaves | packages/frontend/lib/pos-cart.ts:78-88 | a moved line changes its professional and key, or only the quantity of the line it is merged into |
| Cart.LinesAreAsAdded | packages/frontend/lib/pos-cart.ts:54-88 | over any run every line has the item, name, price, discount and stock it was added with |
| Cart.RunRefines | packages/frontend/lib/pos-cart.ts:54-88 | over any run of operations the cart keeps distinct keys, each its line's, and is the map those operations give |
| Cart.ReassignConserves | packages/frontend/lib/pos-cart.ts:78-88 | changing who did a line, merged or not, conserves the units of every item |
| Cart.MovedDiscount | packages/frontend/lib/pos-cart.ts:78-88 | the line's own discount goes along if and only if there is no line to merge into; otherwise that one keeps its own and the moved one's is dropped |
| Cart.FractionLeavesEmptyLine | packages/frontend/lib/pos-cart.ts:65-68 | the cart stays well formed exactly when the quantity is not between 0 and 1 or meets no line it can change |
| Euros.EurosRoundTrip | packages/frontend/lib/pos-cart.ts:208-257 | printed cents are read back exactly by the till and, above zero, by the refund form |
| Euros.NegativeIsNotRead | packages/frontend/lib/pos-cart.ts:255-257 | an amount below zero prints a sign neither reader takes |
| Euros.ShortAmounts | packages/frontend/lib/pos-cart.ts:208-212 | one decimal is tenths, with comma or point, and a bare separator is left alone |
| Euros.RefundReaderAgrees | packages/frontend/lib/payments-format.ts:48-54 | the refund form reads an amount exactly when the till reads it, it is above zero and it ends in a digit |
| Euros.ReadsExactly | packages/frontend/lib/pos-cart.ts:208-212 | the till reads exactly whole euros with at most two decimals after a comma or a point, spaces and euro signs aside, at their value |
| Tenders.AcceptedMeans | packages/frontend/lib/pos-cart.ts:177-190 | tenders are accepted exactly when they cover what is due and everything but cash fits in it; the change is then covered by cash |
| Tenders.RefusedFor | packages/frontend/lib/pos-cart.ts:177-190 | each refusal is given exactly when that is wrong, the tenders themselves before their sum |
| Tenders.ShortByThat | packages/frontend/lib/pos-cart.ts:183-184 | the amount a refusal names, handed over in cash, makes the payment accepted |
| Tenders.KeptAsTyped | packages/frontend/lib/pos-cart.ts:193-200 | what is sent is the tenders with money in them, in order, with their means, amount and trimmed gift card code |
| Tenders.ServerKeepsAcceptance | packages/frontend/lib/pos-cart.ts:193-203 | what is sent keeps the sum, the cash and the acceptance on every ticket that costs something |
| Tenders.ServerOnFreeTicket | packages/frontend/lib/pos-cart.ts:193-203 | on a free ticket it does exactly unless all is zero and the first tender is a gift card |
| Tenders.FillMakesExact | packages/frontend/lib/pos-cart.ts:160-163 | filling one tender makes the payment exact unless the others exceed what is due, and changes no other |
| Tenders.AddedTender | packages/frontend/lib/pos-cart.ts:166-170 | an added tender takes what is left, by a means not used yet while one is free |
| Tenders.RefillIsExact | packages/frontend/lib/pos-cart.ts:246-270 | after a row other than the last is edited the form pays exactly what is due if and only if the other rows parse and fit |
| Tenders.AddRowIsExact | packages/frontend/lib/pos-cart.ts:246-281 | the same after a row is added; one blank row counts as all that is due |
| Tenders.AddedRow | packages/frontend/lib/pos-cart.ts:273-281 | one row is added, by a means not used yet while one is free; the others stay, but for a single blank amount |
| Tenders.RefillTouchesTheLast | packages/frontend/lib/pos-cart.ts:263-269 | refilling touches nothing but the amount of the last row, and that only when another was edited |
| Tenders.RowsKeepCodes | packages/frontend/lib/pos-cart.ts:246-252 | the tenders of a form have their codes exactly when its gift card rows do |
| Tenders.ExactIsAccepted | packages/frontend/lib/pos-cart.ts:177-190 | an exact payment is accepted once its gift cards have their codes |
| Refunds.RefundRun | packages/frontend/lib/payments-format.ts:99-104 | over any run of refunds the money never exceeds the line, is all of it once all units are back, and after n refunds is within n/2 cents of the proportional part, cap included |
| Refunds.RefundBalanced | packages/frontend/lib/payments-format.ts:99-104 | what one more refund keeps: the books balance and the drift grows by at most half a cent |
| Refunds.PickedWithinRefundable | packages/frontend/lib/payments-format.ts:107-119 | whatever is typed, at least one and at most the refundable units of a line are picked, worth at most what is left and all of it when all is picked |
| Refunds.PickedUnitsAreWhole | packages/frontend/lib/payments-format.ts:112 | parts of a unit are dropped and more than there is counts as all |
| Refunds.UnitsAtNearestCent | packages/frontend/lib/payments-format.ts:99-104 | part of a line is worth its share to the nearest cent while that much is left |
| Refunds.EveryPickCounts | packages/frontend/lib/payments-format.ts:107-118 | every line with a unit picked is in the refund, in order and with its units, and the value is the sum of theirs |
| Invoices.WholeQuantity | packages/frontend/lib/invoice-totals.ts:63-64 | a line is its quantity times the whole-cent price of one unit |
| Invoices.DiscountedUnit | packages/frontend/lib/invoice-totals.ts:54-63 | one unit's price is the discounted price to the nearest cent; out-of-range discounts are clamped |
| Invoices.ComputeInvoiceTotals | packages/frontend/lib/invoice-totals.ts:74-83 | the loop's totals are the sums of the lines' amounts, each by itself |
| Invoices.TotalsAreSums | packages/frontend/lib/invoice-totals.ts:74-83 | each figure of the invoice is the sum of the lines' own |
| Invoices.TaxIsTheRate | packages/frontend/lib/invoice-totals.ts:66-71 | the tax on top, or the base of an included price, is what the rate says to the nearest cent |
| Invoices.IncludedInvoiceIsTheTypedPrices | packages/frontend/lib/invoice-totals.ts:66-83 | an invoice with tax-included prices charges exactly the prices typed, whatever the rates |
| Invoices.OnTopSplitsBack | packages/frontend/lib/invoice-totals.ts:58-72 | the total of a tax-on-top line, typed as a tax-included price, splits back into the same base and tax, for every rate of 0 or more |
| Invoices.RetaxBound | packages/frontend/lib/invoice-totals.ts:66-71 | a tax-included price taxed again from its base is off by at most 1 + rate/200 cents |
| Invoices.RetaxIsWithinOneCent | packages/frontend/lib/invoice-totals.ts:66-71 | every price comes back within one cent if and only if the rate is at most 200 %, for rates that are fractions |
| Invoices.RetaxWithinOneCent | packages/frontend/lib/invoice-totals.ts:66-71 | up to 200 % it does, for any rate and any amount |
| Invoices.RetaxOffByTwo | packages/frontend/lib/invoice-totals.ts:66-71 | above 200 % some price comes back exactly two cents higher, whatever the rate |
| Invoices.ClientPriceIsInvoiced | packages/frontend/lib/prices-tax-example.ts:91-96 | the price a client sees is what one unit is invoiced at if and only if the rate is not negative, the tax is included, or it is under half a cent |
| Invoices.ExampleIsInvoiced | packages/frontend/lib/prices-tax-example.ts:41-64 | the worked example is the invoice of one unit, amount by amount, if and only if the rate is not negative or the tax is within half a cent |
| WebAddress.SlugWellFormed | packages/frontend/lib/signup-form.ts:18-27 | every name gives letters, digits and single inner hyphens, 63 at most |
| WebAddress.SlugifyIdempotent | packages/frontend/lib/signup-form.ts:18-27 | slugifying a slug changes nothing |
| WebAddress.HyphenateKeepsLetters | packages/frontend/lib/signup-form.ts:23 | the letters and digits survive in order |
| WebAddress.SlugKeepsLetters | packages/frontend/lib/signup-form.ts:18-27 | a slug has the letters and digits of the name in order, all of them unless it was cut for its length |
| WebAddress.TypedIsPendingSlug | packages/frontend/lib/signup-form.ts:63-71 | the typed field is the slug with at most one hyphen pending, and typing it again changes nothing |
| WebAddress.ReplaceAllIsSplitJoin | packages/frontend/lib/signup-form.ts:33 | splitting at a word and joining with a hyphen replaces it from the left |
| WebAddress.WithoutPlatformWords | packages/frontend/lib/signup-form.ts:29-39 | the guarded loop computes ten passes, stopping when one changes nothing |
| WebAddress.PassShrinks | packages/frontend/lib/signup-form.ts:32-34 | a pass leaves a slug without the words alone and takes at least six characters off any other |
| WebAddress.PassesSuffice | packages/frontend/lib/signup-form.ts:29-39 | n passes clear any well-formed slug shorter than 6n + 7, whatever words the replacements bring together |
| WebAddress.OnlyWordsAreCut | packages/frontend/lib/signup-form.ts:29-39 | whatever the slug and the number of passes, the result is reached from it by cutting out occurrences of the listed words and tidying hyphens, nothing else |
| WebAddress.WordBetween | packages/frontend/lib/signup-form.ts:29-39 | a listed word between two parts of a name is taken out and the parts stay as they are |
| WebAddress.AddressHasNoPlatformWord | packages/frontend/lib/signup-form.ts:12-39 | for every name the address contains none of the four words and is still well formed |
| WebAddress.SuggestionUsable | packages/frontend/lib/signup-form.ts:53-56 | the suggestion is empty only for a blank name, and otherwise usable |
| ChatInline.DoubleAtMeaning | packages/frontend/lib/chat-markdown.ts:30 | the double-asterisk matcher finds exactly what the pattern matches, ended as early as possible |
| ChatInline.SingleAtMeaning | packages/frontend/lib/chat-markdown.ts:30 | the same of single asterisks hugging their text, the longer form tried first |
| ChatInline.MatchAtMeaning | packages/frontend/lib/chat-markdown.ts:28-30 | the first alternative wins wherever it matches at all |
| ChatInline.ParseInline | packages/frontend/lib/chat-markdown.ts:32-43 | the loop over the matches gives the pieces of the text |
| ChatInline.InlinesReassemble | packages/frontend/lib/chat-markdown.ts:32-43 | with one or two asterisks put back around each bold piece the pieces are the input; each bold piece is what the pattern matches there, and no match begins in a plain one |
| ChatInline.PiecesWellFormed | packages/frontend/lib/chat-markdown.ts:32-43 | no piece is empty and plain text is never cut in two |
| ChatBlocks.BulletReadsBack | packages/frontend/lib/chat-markdown.ts:25 | a bullet line with any of the three marks, with spaces before it, after its mark and at its end, reads back as an item |
| ChatBlocks.NumberReadsBack | packages/frontend/lib/chat-markdown.ts:26 | a numbered line, with point or bracket and spaces in the same places, reads back with its number |
| ChatBlocks.HeadingReadsBack | packages/frontend/lib/chat-markdown.ts:27 | one to six marks, with spaces in the same places, make a bold line, more are words |
| ChatBlocks.PlainReadsBack | packages/frontend/lib/chat-markdown.ts:57-85 | a line that begins with none of the marks is read as it is |
| ChatBlocks.BlankLines | packages/frontend/lib/chat-markdown.ts:57-85 | a line is blank exactly when it holds only spaces |
| ChatBlocks.ParseChatMarkdown | packages/frontend/lib/chat-markdown.ts:45-87 | the line machine gives the maximal runs of lines that go together |
| ChatBlocks.BlocksAreTheRuns | packages/frontend/lib/chat-markdown.ts:45-87 | paragraph lines and items, in order, are the non-blank lines; every block is a maximal run, none is empty, and a numbered list starts at the number on its first line |
| ChatBlocks.AnyLineEnds | packages/frontend/lib/chat-markdown.ts:57 | text whose lines end in LF, CRLF or CR, mixed, is read as those lines |
| ChatBlocks.LinesJoin | packages/frontend/lib/chat-markdown.ts:57 | the lines joined again are the text, and no line holds a line end |
| ImportErrors.CollectColumns | packages/frontend/lib/import-errors.ts:27-32 | the nested loops collect each key once, by where it is first seen |
| ImportErrors.ErrorRowsCsv | packages/frontend/lib/import-errors.ts:26-41 | the loops write the byte order mark, the header and the rows in row order |
| ImportErrors.FileReadsBack | packages/frontend/lib/import-errors.ts:20-41 | a reader following section 2 of RFC 4180 recovers the header and, in row order, every cell as guarded, one per column plus two |
| ImportErrors.RecordHoldsRow | packages/frontend/lib/import-errors.ts:35-38 | record i + 1 holds row i: each column's value, the row number whatever its sign, the reasons |
| ImportErrors.ReasonsReadBack | packages/frontend/lib/import-errors.ts:12-14 | the reasons of a row, split again, are its errors in order exactly when it has some and none of them holds the separator |
| ImportErrors.ColumnReadsBack | packages/frontend/lib/import-errors.ts:13 | a reason gives back its column at its first colon and space exactly when the column's name holds none |
| ImportErrors.HeaderNamesColumns | packages/frontend/lib/import-errors.ts:33-34 | the first record names the columns, then Fila and Errores |
| ImportErrors.RowsInOrder | packages/frontend/lib/import-errors.ts:35 | rows come by number, none lost or repeated, ties in the order given |
| ImportErrors.ColumnsFirstSeen | packages/frontend/lib/import-errors.ts:27-32 | every key of every row is a column, once, in first-seen order |
| ImportErrors.GuardedIsNoFormula | packages/frontend/lib/import-errors.ts:20-22 | no cell starts as a formula, and one that would not is left as it is |
| ImportErrors.QuotedWhenNeeded | packages/frontend/lib/import-errors.ts:23 | a cell is in quotes exactly when it holds a separator, quote or line break |
| Calendar.YearLength | packages/frontend/lib/time-off.ts:188-192 | consecutive years start a year's days apart, leap years included |
| Calendar.RealDates | packages/frontend/lib/time-off.ts:188-198 | the dates that exist are those of the calendar, month lengths and leap years written out |
| Calendar.DaysFollow | packages/frontend/lib/time-off.ts:188-198 | day numbers start at 1970-01-01 and go up by one from each date to the next, across months and years |
| Calendar.DayNumbersTellDatesApart | packages/frontend/lib/time-off.ts:188-192 | dates that exist and day numbers go in the same order, one for one |
| Calendar.DateOfDayNumber | packages/frontend/lib/time-off.ts:195-198 | the date of a date's day number is that date |
| Calendar.IsoDayReadsBack | packages/frontend/lib/time-off.ts:195-198 | the day string of a date in years 0 to 9999 reads back as that date |
| Calendar.DayStringUnique | packages/frontend/lib/time-off.ts:176-198 | a date has only one day string |
| Calendar.StringOrderIsDayOrder | packages/frontend/lib/time-off.ts:229-231 | string order of day strings is day order, and equal days are equal strings |
| Calendar.UtcDayOfParts | packages/frontend/lib/time-off.ts:188-198 | Date.UTC of a date with its day moved is its day number moved, from year 100 on |
| Calendar.MonthsCarry | packages/frontend/lib/time-off.ts:195-198 | twelve months more are a year more and days carry on from the month, as Date.UTC reckons |
| TimeOff.AddDaysMoves | packages/frontend/lib/time-off.ts:195-198 | moving a day moves its number, and gives a day exactly while the year stays between 100 and 9999 |
| TimeOff.DaysInRangeIsDistance | packages/frontend/lib/time-off.ts:188-192 | the days counted are the distance of the day numbers, plus one |
| TimeOff.TheDayAfter | packages/frontend/lib/time-off.ts:188-198 | the day after a day is the next of the calendar, the day before that is it again, and both are two days |
| TimeOff.DayLine | packages/frontend/lib/time-off.ts:188-198 | counting after moving gives k + 1, moves add up, and string order follows, across months and leap years |
| TimeOff.TwoDigitYears | packages/frontend/lib/time-off.ts:195-198 | a real day moved by nothing stays if and only if its year is 100 or later |
| TimeOff.FormDates | packages/frontend/lib/time-off.ts:245-252 | the form's string comparisons refuse exactly blocks under 1 or over 366 days |
| TimeOff.FormAccepts | packages/frontend/lib/time-off.ts:237-260 | the form accepts exactly 1 to 366 days, two clocks in order or none, and a note of at most 200 characters |
| TimeOff.FormHours | packages/frontend/lib/time-off.ts:252-258 | a block of 1 to 366 days is refused for its clocks, their order or its note exactly when that is wrong |
| TimeOff.CurrentOrUpcoming | packages/frontend/lib/time-off.ts:229-231 | a block shows exactly while its last day is not over |
| ClosedDays.ClosedDayRanges | packages/frontend/lib/salon-legal.ts:202-220 | the method gives RangesAhead for every input |
| ClosedDays.JoinDays | packages/frontend/lib/salon-legal.ts:213-218 | the loop that lengthens the last range joins consecutive days |
| ClosedDays.SortedIncreases | packages/frontend/lib/salon-legal.ts:210-212 | the filtered, sorted strings are strictly increasing days |
| ClosedDays.RangesAreTheClosedDays | packages/frontend/lib/salon-legal.ts:202-220 | the runs cover a day if and only if it was in the input and in the window; they increase, with an open day between, and each is maximal |
| SalonHours.ClockReadsBack | packages/frontend/lib/salon-hours.ts:30-42 | a printed clock reads back as its minutes |
| SalonHours.ReadClock | packages/frontend/lib/salon-hours.ts:30-38 | one or two digits, a colon and two digits, with spaces around them or not, are read, or refused past 23:59 |
| SalonHours.OnlyClocksAreRead | packages/frontend/lib/salon-hours.ts:30-38 | nothing else is read |
| SalonHours.CapitalsDoNotMatter | packages/frontend/lib/salon-hours.ts:155 | a weekday is known in capitals, small letters or both |
| SalonHours.WhenRecorded | packages/frontend/lib/salon-hours.ts:45-73 | exactly which stored values are hours, and which entries they give |
| SalonHours.PairOpensEveryDay | packages/frontend/lib/salon-hours.ts:45-73 | the old pair of times opens that stretch on every weekday |
| SalonHours.Merge | packages/frontend/lib/salon-hours.ts:161-166 | the loop merges sorted windows into windows apart from each other, open at the same minutes |
| SalonHours.SalonWindowsOn | packages/frontend/lib/salon-hours.ts:147-168 | the windows increase, are strictly apart, and cover a minute if and only if some readable shift of that weekday does |
| SalonHours.WindowsAreUnique | packages/frontend/lib/salon-hours.ts:147-168 | only one such list exists, so order, overlap and repetition of the shifts make no difference |
| RefreshProtocol.QueryIsIgnored | packages/frontend/lib/api.ts:144-149 | a query string never changes how a 401 is taken, and a refresh call is never taken for a credential one |
| RefreshProtocol.NeverTheSamePage | packages/frontend/lib/api.ts:151-168 | a 401 never sends the browser to the page it is on, and sends it to its login page unless it is there or is a client's |
| RefreshProtocol.Safety | packages/frontend/lib/api.ts:2660-2761 | in every interleaving at most one refresh is in flight; a request is sent twice at most, twice only after the refresh it awaited worked, and signs out after one send only if that refresh failed; credential and refresh calls never refresh |
| RefreshProtocol.RepliesDecide | packages/frontend/lib/api.ts:2660-2761 | over any run a request stands where its replies say: answered exactly by a last reply that is not a 401, waiting for a refresh after a first 401, sent again if it worked, signed out if it did not or by a second 401 |
| RefreshProtocol.OutcomesAtTheEnd | packages/frontend/lib/api.ts:2660-2761 | at the end of a run the outcome is that of the last reply, and a refused plain request had a second one exactly when its refresh worked |
| RefreshProtocol.FirstRefusalJoins | packages/frontend/lib/api.ts:2696-2705 | the first 401 of a plain request joins the refresh in flight, or starts one and leads it |
| RefreshProtocol.StepKeepsValid | packages/frontend/lib/api.ts:2947-2959 | every step keeps the field naming the one refresh in flight, with exactly one leader |
| RefreshProtocol.EveryRequestEnds | packages/frontend/lib/api.ts:2660-2761 | a run of n starts has at most 7n steps, and when none is left every caller is done and the field is clear |
| RefreshProtocol.SomethingCanHappen | packages/frontend/lib/api.ts:2947-2959 | nobody is left waiting: while a caller is not done some step is possible |
| RefreshProtocol.OneRefreshForAll | packages/frontend/lib/api.ts:2949-2959 | over any run while a refresh is in flight no other is started, and everyone who begins to wait waits for it |
| RefreshProtocol.ApiClient.RefreshAccessToken | packages/frontend/lib/api.ts:2949-2959 | the method up to its await does the machine's join on the object's fields |
| RefreshProtocol.ApiClient.ProactiveRefresh | packages/frontend/lib/api.ts:244-250 | a timer that fires joins or starts the refresh like any caller |
| RefreshProtocol.ApiClient.OnReply | packages/frontend/lib/api.ts:2686-2705 | what request does with its answer |
| RefreshProtocol.ApiClient.OnRefreshed | packages/frontend/lib/api.ts:2954-2958 | the await returns and the leader clears the field |
| RefreshProtocol.ApiClient.OnResume | packages/frontend/lib/api.ts:2698-2705 | the caller sends again or gives up |
| LookupCache.RunKeepsValid | packages/frontend/middleware.ts:43-148 | in every interleaving a cache has at most 2000 entries, each the last definite answer for its own key, and every lookup's answer is justified |
| LookupCache.HostAnswersAreRecent | packages/frontend/middleware.ts:50-84 | an answer from the host cache was given for that host, asked for less than 5 minutes (hit) or 1 minute (miss) before |
| LookupCache.StateAnswersAreSaid | packages/frontend/middleware.ts:121-148 | a salon is gone or moved only if the API said so of its address, now or less than 5 minutes before |
| LookupCache.EmbedHeadersAreRecent | packages/frontend/middleware.ts:92-112 | a cached frame header is what the API's list for that token gave less than a minute before |
| LookupCache.RepliesAreHeard | packages/frontend/middleware.ts:60-148 | which replies are answers, and what each says of a host, a salon or a widget |
| LookupCache.AnswersAreKept | packages/frontend/middleware.ts:81-83 | a definite answer is kept for its time and pushes nothing out unless the cache was full |
| LookupCache.ServedWhileFresh | packages/frontend/middleware.ts:56-58 | an entry not yet expired is served without asking, and any other is asked for |
| LookupCache.TimesToLive | packages/frontend/middleware.ts:43-121 | how long each kind of answer is kept |
| LookupCache.HostIsAskedOnce | packages/frontend/middleware.ts:50-84 | once the API has named a host's salon, lookups of it are served that for five minutes without asking, and then ask |
| LookupCache.OverlapGoesBack | packages/frontend/middleware.ts:81-83 | whenever two lookups of a key are pending the earlier question's answer can replace the later one's |
| LookupCache.OverlapIsReached | packages/frontend/middleware.ts:55-84 | a run from an empty cache in which it does |
| LookupCache.WithoutOverlapNewestIsKept | packages/frontend/middleware.ts:55-84 | while lookups of a key never overlap an entry is the answer asked for last |
| LookupCache.TtlCache.Look | packages/frontend/middleware.ts:56-58 | the lookup before its fetch |
| LookupCache.TtlCache.Settle | packages/frontend/middleware.ts:60-84 | the lookup after its fetch does the machine's step on the map |
| Booking.ServicesShown | packages/frontend/lib/public-booking-locations.ts:79-88 | the services shown at a location are those someone there can be booked for |
| Booking.OnPageList | packages/frontend/app/sites/[salonName]/salon-booking-page.tsx:650-654 | the professionals listed are those who do the service and work there |
| Booking.NoDeadEnd | packages/frontend/lib/public-booking-locations.ts:48-88 | at a chosen location a service is on offer if and only if someone is listed for it |
| Booking.ChangingLocationKeeps | packages/frontend/lib/public-booking-locations.ts:157-176 | what stays picked at another location is exactly what can still be booked there |
| Booking.ChangingServiceKeeps | packages/frontend/lib/booking-professional.ts:38-48 | whoever does the new service too stays picked, and nobody else does |
| Booking.PickedIsAsked | packages/frontend/lib/public-booking-locations.ts:95-107 | whoever is picked is asked for, can be booked there, and moves no location already chosen |
| Booking.LastPicksStand | packages/frontend/app/sites/[salonName]/salon-booking-page.tsx:473-512 | over any run the form asks for who and what was picked last, or has it blank after a change of location or service; a chosen location and the pin stay |
| Booking.PinnedServices | packages/frontend/lib/booking-professional.ts:24-32 | with a professional pinned the services are those she does, or all when none is |
| Booking.LocationPicked | packages/frontend/lib/public-booking-locations.ts:157-176 | changing location keeps the form consistent |
| Booking.ServicePicked | packages/frontend/lib/booking-professional.ts:38-48 | changing service keeps the form consistent |
| Booking.ProfessionalPicked | packages/frontend/lib/public-booking-locations.ts:95-107 | picking a professional keeps the form consistent and sets a location |
| Booking.StepKeepsConsistent | packages/frontend/app/sites/[salonName]/salon-booking-page.tsx:473-512 | every step keeps the form consistent, booking again if and only if the pinned professional works at the kept location |
| Booking.StartFits | packages/frontend/app/sites/[salonName]/salon-booking-page.tsx:306-333 | a link opens a consistent form if and only if its location has the service and its professional is known, works there and does it |
| Booking.LinkIsTaken | packages/frontend/app/sites/[salonName]/salon-booking-page.tsx:306-333 | what a link names is picked, a professional the salon knows is pinned and brings one of her locations when the link names none |
| Booking.WhatIsAskedCanBeBooked | packages/frontend/app/sites/[salonName]/salon-booking-page.tsx:473-512 | over any run from such a link, whoever is asked for does the service and works at the location |
| Booking.PinsAreSafeExactlyWhen | packages/frontend/app/sites/[salonName]/salon-booking-page.tsx:473-512 | from a link that fits, every run keeps the form consistent if and only if the link pins nobody, the salon has no location step, or the one pinned works at every location |
| Booking.MisfitPinIsKept | packages/frontend/app/sites/[salonName]/salon-booking-page.tsx:598-608 | otherwise the pinned professional is asked for where she does not work |
| Booking.PinnedAtAnotherLocation | packages/frontend/app/sites/[salonName]/salon-booking-page.tsx:598-608 | a salon where that happens |
| Booking.ListsAgree | packages/frontend/app/embed/[token]/page.tsx:369-373 | the widget's list is the page's exactly when the page's is not empty or nobody is here |
| Booking.WidgetPickFits | packages/frontend/app/embed/[token]/page.tsx:546-556 | picking from the widget's list fits exactly when no service is picked or the page would have had someone |
| Booking.WidgetOffersAnyone | packages/frontend/app/embed/[token]/page.tsx:369-373 | a salon where the widget offers someone who does not do the service |

## Left out

- Rounding of IEEE doubles, NaN, infinities and -0: numbers are exact, so a tender with a fraction of a cent and a tax rate of exactly -100 % on a tax-included line are not modelled.
- Unicode decomposition, dropping of combining marks and lower-casing before slugifying: one abstract step per character, and likewise the capitals of gift card codes.
- Lower-casing of weekday names outside A to Z.
- Formatting of money and dates by `Intl`, the words of messages and the reason text kept with a discount.
- UTF-16 code units: strings are sequences of characters, which none of the patterns tells apart.
- Dates that do not exist, such as 2026-02-30, and years before 100: the functions give a value for such closed days, of which nothing is said beyond `TimeOff.TwoDigitYears`; day strings of any other shape are not given to `addDays` and `daysInRange`.
- A row's `data` with a key of the object prototype, for which `data[c]` finds an inherited value; the order in which JavaScript lists keys is taken as given.
- `weekly-schedule`: the seven day keys are written out; the wizard's hours and the saved setting are not modelled.
- Sorting in place: `Sorting.Sort` is a stable sort by insertion, and where it does not matter nothing more is said of it.
- Tokens, cookies, local storage, support tabs and the rest of the API client: the refresh machine keeps only who waits for what. The step that starts a request and the one in which a refresh is answered have no method of the class.
- The delay of the proactive timer, and the two file downloads that refresh and retry by themselves: they join a refresh as the timer does, and their own retry is not modelled.
- That every await is answered some time: termination says that no run has more steps than its starts allow.
- HTTP and JSON: a reply is its status and what the code reads of its body; what `frameAncestorsHeader` makes of a body is a parameter.
- The class of a cache holds one map; that JavaScript's three maps are three objects is not modelled beyond that.
- The booking form's date, time and personal data, React's rendering, and the location named by a query string, which is taken as found.
- `serviceLineWithoutProfessional`, `itemsForServer`, gift card sales, labels, `refundableCents` of a payment, `salonWebPreview` and the remaining helpers of these files: finite tables or one-line expressions.
