# Train booking workflow — a Dafny model

This project models the decision logic of a React train-booking front end. That logic lives in three pages:

- **The booking page.** It holds a seat map generated for the chosen coach class and a roster of 1 to 6 passengers. Age edits re-derive each passenger's fare category. Selecting a seat silently takes it from any other holder. A fare summary sums the base fares and applies the child and senior discounts, rounded once, then adds 5% GST. A three-step controller (Passenger Details → Seat Selection → Review & Pay) gates each forward step on a validation rule. Submit is gated on the terms checkbox.
- **The payment page.** It is a three-step controller (Review Booking → Select Payment Method → Payment) with per-method field validation, a confirmation dialog, a simulated settlement delay, and a one-time-password dialog for cards and net banking. It also has a card-number formatter. It shows the received total split into a base fare of 95% and a GST of 5%.
- **The train search page.** It validates the source and destination, swaps stations, filters results into departure-hour buckets, and sorts by departure time, duration or cheapest class.

The model is split by source concern:

| file | models |
|---|---|
| `wrappers.dfy` | `Option` |
| `js_text.dfy` | the JavaScript string and number built-ins the pages lean on: `\s`, `trim`, `parseInt`, `split`, `replace`, decimal printing |
| `seat_map.dfy` | `generateAvailableSeats` (a method with nested loops) and the seat it builds at each number |
| `fares.dfy` | the age categories and discounts, the fare effect (a method with a loop), GST and the payable total, and the fare lines the payment page shows |
| `roster.dfy` | passengers, the edits `handlePassengerChange` applies, the seat hand-over of `handleSeatSelect`, and the validation schema |
| `trains.dfy` | the train descriptor with its price and seat tables |
| `booking.dfy` | the booking page as a class `BookingSession` whose methods are the page's handlers |
| `payment_rules.dfy` | the payment regexes as predicates, and `formatCardNumber` (a method with a loop) |
| `payment.dfy` | `validatePaymentDetails` and the payment page as a class `PaymentSession` |
| `train_search.dfy` | the filter and sort, their keys, and the search form as a class `SearchSession` |

Fares are kept in whole rupees, as the pages show them. The discounted sum is computed exactly, in hundredths of a rupee, and `Math.round` is round-half-up. The random seat availability and the random booking id are parameters. Each `setTimeout` is a pending timer that the environment fires by calling a method (`TimerFired`, `SearchTimerFired`).

Four behaviours of the source are easy to misread; the model follows the code:

- The UPI pattern has no end anchor, so `ab@cd!!` passes.
- Berths are shown for `SL` and for every class code containing `A`, not only for sleeper classes.
- Selecting a seat that is not on the map makes the page throw; it does not report the seat as not found. The model requires the seat to be on the map.
- Opening the search page with both stations in the query string runs the search at once.

## Model

| member | source | states |
|---|---|---|
| SeatMap.GenerateSeats | src/components/bookings/BookingPage.js:104-126 | exactly `count` seats, the k-th numbered k+1 and equal to `SeatAt` for its number (row, letter, berth, availability draw) |
| SeatMap.SeatPositionCycles | src/components/bookings/BookingPage.js:111-116 | seat n's berth is Lower/Middle/Upper by (n-1) mod 3 for `SL` and classes containing `A`, and none otherwise |
| SeatMap.SeatCodeDeterminesNumber | src/components/bookings/BookingPage.js:109-117 | two seats of one map with the same code are the same seat (row number followed by the letter A–F identifies the seat) |
| SeatMap.RowAndColumn | src/components/bookings/BookingPage.js:109-112 | seat (i-1)*6+j+1 sits in row i, column j |
| Fares.DiscountPercent | src/components/bookings/BookingPage.js:94-98 | adults pay full fare; children and seniors get 50% and 40% off, never more than half |
| Fares.RoundHalfUp | src/components/bookings/BookingPage.js:203 | the result is the integer nearest num/den, halves rounded up (`Math.round`) |
| Fares.AccumulateFares | src/components/bookings/BookingPage.js:187-205 | the `forEach` loop yields the base fare (passengers × class price) and the discounted sum rounded once |
| Fares.DiscountedCentsBounds | src/components/bookings/BookingPage.js:192-200 | the unrounded discounted sum never exceeds the base fare; it equals the base fare for all-adult rosters and is at least 40% of a ticket below it otherwise |
| Fares.FareNeverExceedsBase | src/components/bookings/BookingPage.js:187-205 | the discounted fare is at most the total fare |
| Fares.FareEqualsBaseIffAllAdults | src/components/bookings/BookingPage.js:187-205 | at any class price of 2 or more, discounted fare equals total fare exactly when every passenger is an adult |
| Fares.ChildAtOneRupeeRoundsUp | src/components/bookings/BookingPage.js:199-203 | at a price of 1, a child's half rupee rounds up to the full fare, so the previous equivalence needs its price bound |
| Fares.FareGrowsWithPassengers | src/components/bookings/BookingPage.js:187-205 | adding a passenger never lowers the total or the discounted fare |
| Fares.RoundHalfUpMonotone | src/components/bookings/BookingPage.js:203 | rounding preserves order |
| Fares.GstCompletesTotal | src/components/bookings/BookingPage.js:351 | the GST line plus the discounted fare is the payable total handed to payment |
| Fares.ChildAndFiveSeniorsAt501 | src/components/bookings/BookingPage.js:191-202 | a child and five seniors at 501 give an exact discounted sum of 1753.5, rounded to 1754 |
| Fares.TwoAdultsIn2A | src/components/bookings/BookingPage.js:843-863 | two adults in 2A at 1900: 3800 total, 3800 discounted, GST 190, payable 3990 |
| Fares.AdultAndSeniorIn2A | src/components/bookings/BookingPage.js:843-863 | adult and senior in 2A at 1900: 3800 total, 3040 discounted, GST 152, payable 3192 |
| Fares.SplitReceivedTotalOvershoot | src/components/bookings/PaymentPage.js:86-90 | the payment page's base fare plus GST is the total or one rupee more, and one more exactly when the total is 10 more than a multiple of 20 |
| Fares.FareLinesForKeepsTotal | src/components/bookings/PaymentPage.js:86-90 | the corrected lines charge the same total as the page's split and show the discounted fare as the base |
| Fares.SplitReceivedTotalDisagrees | src/components/bookings/PaymentPage.js:86-90 | the payment page's re-split of 3990 gives base 3791 and GST 200, which do not sum to 3990 nor match the booking summary |
| Fares.FareLinesFor | src/components/bookings/PaymentPage.js:86-90 | the corrected fare lines: base plus GST equals the total, and GST and total are those of the booking summary |
| Roster.CategoryForAge | src/components/bookings/BookingPage.js:250-260 | child exactly for 5..11, senior exactly from 60, adult exactly below 5 or 12..59 |
| Roster.ApplyEdit | src/components/bookings/BookingPage.js:245-264 | an edit never touches the seat or berth |
| Roster.LastAgeEditWins | src/components/bookings/BookingPage.js:245-264 | a readable age edit overrides a manually chosen category, and sets the category from the parsed age |
| Roster.UnreadableAgeKeepsCategory | src/components/bookings/BookingPage.js:251-252 | an age `parseInt` cannot read changes only the age text |
| Roster.AgeFourIsAdult | src/components/bookings/BookingPage.js:253-258 | age 4 falls through to adult |
| Roster.LeadingDigitsGiveChild | src/components/bookings/BookingPage.js:251-254 | `parseInt` reads "8y" as 8, so the category becomes child |
| Roster.AgeSixtyFiveIsSenior | src/components/bookings/BookingPage.js:255-256 | age 65 is senior |
| Roster.AssignSeat | src/components/bookings/BookingPage.js:276-296 | the roster keeps its length |
| Roster.AssignSeatEffect | src/components/bookings/BookingPage.js:276-296 | the chosen passenger holds the seat and berth; nobody else holds it; passengers who did not hold it are unchanged; no field except seat and berth changes |
| Roster.AssignSeatKeepsDistinct | src/components/bookings/BookingPage.js:276-296 | no two passengers share a seat after a selection if none did before |
| Roster.AssignSeatIdempotent | src/components/bookings/BookingPage.js:276-296 | selecting the same seat for the same passenger twice is the same as once |
| Roster.SecondSelectionTakesTheSeat | src/components/bookings/BookingPage.js:280-286 | a seat chosen by passenger 0 and then by passenger 1 ends with passenger 1, and passenger 0 is cleared |
| Roster.AssignSeatKeepsSeatsOnMap | src/components/bookings/BookingPage.js:276-296 | every held seat stays on the map |
| Roster.AssignSeatKeepsValidity | src/components/bookings/BookingPage.js:276-296 | seat selection changes neither validation nor fare categories |
| Roster.NoEvictionWhenSeatFree | src/components/bookings/BookingPage.js:280-286 | when the seat button is enabled, no other passenger changes |
| Roster.SelectSeatFor | src/components/bookings/BookingPage.js:277-291 | the `forEach` clearing loop followed by the assignment computes `AssignSeat` |
| Roster.Categories | src/components/bookings/BookingPage.js:192-198 | one category per passenger, in roster order |
| Roster.RemoveAt | src/components/bookings/BookingPage.js:237-238 | `splice(i, 1)`: one entry shorter, entries before i kept, entries after i shifted down |
| Roster.RemoveAtKeepsSeatInvariants | src/components/bookings/BookingPage.js:235-243 | removing an entry keeps seats distinct and on the map |
| Roster.AppendBlankKeepsSeatInvariants | src/components/bookings/BookingPage.js:224-233 | appending the blank entry keeps seats distinct and on the map |
| Roster.EditKeepsSeatInvariants | src/components/bookings/BookingPage.js:245-264 | a field edit keeps seats distinct and on the map |
| Roster.BlankPassengerInvalid | src/components/bookings/BookingPage.js:208-216 | the default entry fails validation |
| Roster.SpacedAgeValid | src/components/bookings/BookingPage.js:212-216 | " 30 " passes the age rule (Yup ignores whitespace) |
| Roster.AgeOverLimitInvalid | src/components/bookings/BookingPage.js:216 | 121 fails the age rule |
| Roster.NonPositiveOrTextAgeInvalid | src/components/bookings/BookingPage.js:212-215 | "0", "abc" and "" fail the age rule |
| Roster.ValidateAll | src/components/bookings/BookingPage.js:302-312 | the early-exit loop answers true exactly when every passenger passes the schema |
| Trains.Lookup | src/components/bookings/BookingPage.js:175 | a table lookup is defined exactly when the key is in the table, and then gives the value of the key's first entry |
| Booking.DefaultClass | src/components/bookings/BookingPage.js:167-169 | an empty or unoffered requested class becomes the train's first class; an offered one is kept |
| Booking.BookingSession.constructor | src/components/bookings/BookingPage.js:138-205 | one blank passenger on step 0, the seat map of the defaulted class, fares computed, invariant established |
| Booking.BookingSession.RefreshFares | src/components/bookings/BookingPage.js:187-205 | the fares are recomputed from the current roster |
| Booking.BookingSession.AddPassenger | src/components/bookings/BookingPage.js:224-233 | appends the blank entry iff fewer than 6; otherwise nothing changes; the invariant (1..6, distinct seats, fares) holds |
| Booking.BookingSession.RemovePassenger | src/components/bookings/BookingPage.js:235-243 | removes entry i iff more than one; otherwise nothing changes; the invariant holds |
| Booking.BookingSession.ChangePassenger | src/components/bookings/BookingPage.js:245-264 | only entry i changes, by the edit; fares follow; the invariant holds |
| Booking.BookingSession.OpenSeatSelection | src/components/bookings/BookingPage.js:267-270 | the dialog opens for passenger i |
| Booking.BookingSession.CloseSeatSelection | src/components/bookings/BookingPage.js:272-274 | the dialog closes and nothing else changes |
| Booking.BookingSession.SelectSeat | src/components/bookings/BookingPage.js:276-296 | the roster becomes `AssignSeat` with the seat's berth label, the dialog closes, the invariant holds; with an enabled button no other passenger changes |
| Booking.BookingSession.Next | src/components/bookings/BookingPage.js:299-327 | step 0 advances iff every passenger is valid; step 1 iff every passenger is seated; step 2 stays |
| Booking.BookingSession.Back | src/components/bookings/BookingPage.js:329-331 | one step back |
| Booking.BookingSession.SetTermsAccepted | src/components/bookings/BookingPage.js:818-819 | the terms flag takes the checkbox value |
| Booking.BookingSession.Submit | src/components/bookings/BookingPage.js:333-359 | a request exists iff the terms are accepted; it carries the payable total, and its passengers are valid, seated and on distinct seats |
| PaymentRules.HandleLength | src/components/bookings/PaymentPage.js:237 | the length of the longest run of `[a-zA-Z0-9.\-_]` at the start |
| PaymentRules.UpiIdWellFormedIffPattern | src/components/bookings/PaymentPage.js:237 | the scanning check accepts exactly the ids the unanchored-at-end pattern matches |
| PaymentRules.UpiTrailingTextAccepted | src/components/bookings/PaymentPage.js:237 | `ab@cd!!` is accepted |
| PaymentRules.UpiShortHandleRejected | src/components/bookings/PaymentPage.js:237 | `a@upi` and `abc` are rejected |
| PaymentRules.CardDigits | src/components/bookings/PaymentPage.js:296 | only digits remain, never more than the input |
| PaymentRules.CardDigitsKeepsDigits | src/components/bookings/PaymentPage.js:296 | the card digits are the digits typed, each as often as typed |
| PaymentRules.Chunks | src/components/bookings/PaymentPage.js:301-303 | the blocks run together give back the digits, and there are ceil(n/4) of them |
| PaymentRules.ChunksShape | src/components/bookings/PaymentPage.js:301-303 | every block has 1 to 4 digits, all but the last exactly 4 |
| PaymentRules.FirstMatch | src/components/bookings/PaymentPage.js:297-298 | the first match is empty or 4 to 16 digits |
| PaymentRules.FormatCardNumber | src/components/bookings/PaymentPage.js:295-310 | the method computes `FormattedCardNumber` |
| PaymentRules.BlocksOfFour | src/components/bookings/PaymentPage.js:299-303 | the `for` loop collects exactly the blocks of four |
| PaymentRules.FormattedDigits | src/components/bookings/PaymentPage.js:295-310 | the formatted field without its spaces is the matched digits |
| PaymentRules.FormattedCardNumberDigits | src/components/bookings/PaymentPage.js:295-310 | fewer than four digits leave the entry as typed; otherwise, spaces aside, the field holds its first min(16, n) digits |
| PaymentRules.FormatCardNumberIdempotent | src/components/bookings/PaymentPage.js:295-310 | formatting twice equals formatting once |
| PaymentRules.FormattedCardNumberWellFormedIff | src/components/bookings/PaymentPage.js:295-310 | the formatted number passes the 16-digit rule iff the entry had at least 16 digits |
| PaymentRules.FormattingKeepsWellFormedCard | src/components/bookings/PaymentPage.js:325-330 | blurring a valid card number keeps it valid with the same digits |
| Payment.FieldsOf | src/components/bookings/PaymentPage.js:210-245 | every method checks at least one field, never the OTP |
| Payment.WithField | src/components/bookings/PaymentPage.js:142-181 | only the edited field changes |
| Payment.ErrorMessage | src/components/bookings/PaymentPage.js:207-248 | the message says "required" exactly when the field is empty |
| Payment.CheckField | src/components/bookings/PaymentPage.js:212-216 | one validator step adds an error for the field exactly when it fails, with the message `ErrorMessage` gives |
| Payment.ValidationErrorsField | src/components/bookings/PaymentPage.js:207-248 | a field is reported exactly when it belongs to the chosen method and fails; its message says "required" exactly when it is empty |
| Payment.CardErrorsField | src/components/bookings/PaymentPage.js:210-232 | the card branch reports exactly the failing card fields |
| Payment.ValidationErrorsEmptyIff | src/components/bookings/PaymentPage.js:207-248 | no errors exactly when the details pass every check of the chosen method |
| Payment.PaymentSession.constructor | src/components/bookings/PaymentPage.js:42-93 | step 0, empty details and errors; the fare lines are the page's own split of the received total (base round(total × 0.95), GST round(total × 0.05)) and show that total |
| Payment.PaymentSession.SelectMethod | src/components/bookings/PaymentPage.js:138-140 | only the method changes |
| Payment.PaymentSession.EditField | src/components/bookings/PaymentPage.js:142-181 | the field takes the text and only its error is cleared |
| Payment.PaymentSession.BlurCardNumber | src/components/bookings/PaymentPage.js:325-330 | the card number is reformatted; a valid number stays valid |
| Payment.PaymentSession.Next | src/components/bookings/PaymentPage.js:183-201 | steps 0 and 1 advance unconditionally; on step 2 the step stays and the confirmation opens iff the details pass, otherwise the errors are stored |
| Payment.PaymentSession.Back | src/components/bookings/PaymentPage.js:203-205 | one step back, never below 0 |
| Payment.PaymentSession.CancelConfirm | src/components/bookings/PaymentPage.js:801-813 | the confirmation closes and the form is interactive again |
| Payment.PaymentSession.ConfirmPayment | src/components/bookings/PaymentPage.js:250-253 | the confirmation closes, processing starts, the settlement timer is pending |
| Payment.PaymentSession.TimerFired | src/components/bookings/PaymentPage.js:255-285 | settlement opens the OTP dialog for card and net banking and completes for UPI; OTP verification completes; completion implies accepted details and, off UPI, a well-formed OTP |
| Payment.PaymentSession.EditOtp | src/components/bookings/PaymentPage.js:838-847 | the OTP takes the text and its error is cleared |
| Payment.PaymentSession.SubmitOtp | src/components/bookings/PaymentPage.js:268-286 | a 6-digit OTP closes the dialog and starts verification; anything else keeps the dialog and sets the OTP error |
| Payment.PaymentSession.CancelOtp | src/components/bookings/PaymentPage.js:822-855 | the OTP dialog closes and the form is interactive again |
| TrainSearch.HourInExactlyOneBucket | src/components/trains/TrainSearchPage.js:204-207 | every hour lies in one of morning, afternoon, evening, night, and in only one |
| TrainSearch.FilterBy | src/components/trains/TrainSearchPage.js:202-208 | the result is no longer than the input, and every kept train is from the input and matches the bucket |
| TrainSearch.FilterKeepsExactlyMatching | src/components/trains/TrainSearchPage.js:202-208 | each train occurs in the result as often as in the input when its hour matches, and not at all otherwise |
| TrainSearch.FilterAnyKeepsAll | src/components/trains/TrainSearchPage.js:203 | `any` returns the list unchanged |
| TrainSearch.BucketsPartition | src/components/trains/TrainSearchPage.js:204-207 | with readable hours, the four buckets' sizes add up to the list's size |
| TrainSearch.ClockDepartureHour | src/components/trains/TrainSearchPage.js:204 | the hour read from "HH:MM" is HH |
| TrainSearch.ClockDepartureKey | src/components/trains/TrainSearchPage.js:211 | the departure key of "HH:MM" is HH*100+MM |
| TrainSearch.ClockKeyOrderIsChronological | src/components/trains/TrainSearchPage.js:211 | HHMM keys order clock times as minutes since midnight do |
| TrainSearch.DurationHoursRead | src/components/trains/TrainSearchPage.js:213 | the hours read from "Xh Ym" are X |
| TrainSearch.DurationMinutesRead | src/components/trains/TrainSearchPage.js:213 | the minutes read from "Xh Ym" are Y |
| TrainSearch.MinOf | src/components/trains/TrainSearchPage.js:217-218 | `Math.min` returns an element no larger than any other |
| TrainSearch.PriceKey | src/components/trains/TrainSearchPage.js:217-218 | the price key exists iff the train has prices, and is the cheapest class price |
| TrainSearch.PriceCeiling | src/components/trains/TrainSearchPage.js:217-219 | the key standing for `Infinity` lies above every price in the list |
| TrainSearch.SortTrainsPricelessLast | src/components/trains/TrainSearchPage.js:216-220 | sorted by price, trains without prices come after every train with prices |
| TrainSearch.InsertPermutes | src/components/trains/TrainSearchPage.js:209-222 | insertion adds exactly the new train |
| TrainSearch.InsertSorted | src/components/trains/TrainSearchPage.js:209-222 | insertion keeps a sorted list sorted |
| TrainSearch.StableSortSortedPermutation | src/components/trains/TrainSearchPage.js:209-222 | the sort's output is ascending by the key and a permutation of its input |
| TrainSearch.SortTrainsSortedPermutation | src/components/trains/TrainSearchPage.js:209-222 | the displayed trains are ascending by the chosen key and exactly the filtered trains |
| TrainSearch.InsertStable | src/components/trains/TrainSearchPage.js:209-222 | insertion keeps the order among trains with equal keys, the new one last |
| TrainSearch.StableSortStable | src/components/trains/TrainSearchPage.js:209-222 | trains with equal keys leave the sort in the order they entered |
| TrainSearch.SortTrainsStable | src/components/trains/TrainSearchPage.js:209-222 | ties keep their input order in the displayed list |
| TrainSearch.SearchSession.constructor | src/components/trains/TrainSearchPage.js:130-143 | the initial search state: no error, no results, no pending search, any bucket, sorted by departure |
| TrainSearch.SearchSession.Mount | src/components/trains/TrainSearchPage.js:146-150 | with both stations given, the mount effect runs the search (a search starts, or the same-station error shows); otherwise nothing changes |
| TrainSearch.OpenSearchPage | src/components/trains/TrainSearchPage.js:130-150 | opening the page starts a search exactly when both stations are given and differ, and shows the same-station error at once when they are equal |
| TrainSearch.SearchSession.HandleSearch | src/components/trains/TrainSearchPage.js:152-180 | missing station and same station are rejected with their messages and nothing else changes; otherwise the error clears and one more search timer is queued with the current stations, keeping the session invariant |
| TrainSearch.SearchSession.SearchTimerFired | src/components/trains/TrainSearchPage.js:176-180 | the oldest pending search delivers its results, the spinner goes off even if later searches are pending, and the invariant is kept |
| TrainSearch.OverlappingSearches | src/components/trains/TrainSearchPage.js:152-187 | a second search started before the first timer fires shows its results after the first one's, with the stations swapped between them |
| TrainSearch.SearchSession.Swap | src/components/trains/TrainSearchPage.js:183-187 | source and destination are exchanged |
| TrainSearch.SwapTwice | src/components/trains/TrainSearchPage.js:183-187 | swapping twice restores both stations |
| TrainSearch.SearchSession.SetDepartureFilter | src/components/trains/TrainSearchPage.js:189-191 | the bucket takes the chosen value |
| TrainSearch.SearchSession.SetSortBy | src/components/trains/TrainSearchPage.js:193-195 | the sort order takes the chosen value |
| TrainSearch.SearchSession.SetClassType | src/components/trains/TrainSearchPage.js:357 | the class type changes and the displayed list does not |
| JsText.ParseIntOfDigits | src/components/bookings/BookingPage.js:251 | `parseInt` of a string of decimal digits is its decimal value |
| JsText.ParseIntOfNatToString | src/components/bookings/BookingPage.js:251 | `parseInt` reads back any printed natural number |
| JsText.DecimalValueOfNatToString | src/components/bookings/BookingPage.js:117 | the decimal value of a printed number is that number |
| JsText.RemoveSpaces | src/components/bookings/PaymentPage.js:214 | no whitespace is left, and a string without whitespace is unchanged |
| JsText.OnlyDigits | src/components/bookings/PaymentPage.js:296 | only digits are left, and a string of digits is unchanged |
| JsText.RemoveSpacesKeepsOthers | src/components/bookings/PaymentPage.js:214 | every character that is not whitespace is kept, as often as it occurs |
| JsText.OnlyDigitsKeepsDigits | src/components/bookings/PaymentPage.js:296 | every digit is kept, as often as it occurs |
| JsText.Before | src/components/trains/TrainSearchPage.js:204 | `split(c)[0]` is the prefix before the first `c` |
| JsText.RemoveFirst | src/components/trains/TrainSearchPage.js:211 | `replace(c, '')` drops one character exactly when `c` occurs |
| JsText.RemoveFirstAfter | src/components/trains/TrainSearchPage.js:211 | `replace` drops the first occurrence and keeps the rest |
| JsText.TrimLeadingBlank | src/components/trains/TrainSearchPage.js:213 | `trim` ignores a leading space |

## Left out

- Catalogue lookup (`getTrainById`, `generateMockTrains`): the booking page is given a train, and the search page receives its results as a parameter of `SearchTimerFired`.
- The payment page's fallback mock booking, used when it is opened without a booking: the model always starts from a booking request.
- `Math.random`: the seat availability draw and the booking id are parameters.
- Timers: the one-second train fetch and the booking submit delay are not modelled. The settlement, OTP and search delays are pending timers fired by the environment. Search timers are queued, one per accepted click, and fire oldest first, since they all wait 1.5 s.
- Floating point: fares are exact integers, so the discounted sum is exact before it is rounded. The page sums in doubles, which can land just below a half. For example, at price 501, one child then five seniors give 1753.5 exactly, and the model shows 1754 (Fares.ChildAndFiveSeniorsAt501). The page's running sum is 1753.4999999999995, so it shows 1753.
- Toasts, navigation, URL parameters, the loading and error screens, and all rendering.
- Yup's number grammar is modelled for integer literals only (signed decimal or `0x` hexadecimal, whitespace ignored). Fractions, exponents and `Infinity` are not, so `30.0` is treated as not a number.
- Name rule: Yup's `.min(3)` counts UTF-16 code units; the model counts characters.
- The `maxLength` limits on the CVV (4) and OTP (6) inputs: the model accepts any text. This changes nothing the validators decide, since both regexes check the length themselves.
- The per-passenger fare lines on the Review & Pay step: display only.
- Booking.BookingSession.SelectSeat: requires the seat to be on the map and the dialog to be open. The page throws for a seat not on the map, and offers the button only inside the dialog.
- Handlers that the pages offer only on a given step or inside a dialog require that step or dialog (`requires activeStep == …`). The model does not say what a call from elsewhere would do.
- TrainSearch.Key: a train without prices has the price key `Infinity` on the page. The model gives it PriceCeiling, a key above every price in the list, so it sorts last, as on the page. A departure or duration that `parseInt` cannot read (`NaN`) is given key 0. On the page such a train ties with every other train, so the comparator is not an order and the result is engine-defined. For the departure and duration orders, TrainSearch.SortTrainsSortedPermutation and TrainSearch.SortTrainsStable therefore hold for the model's keys, which match the page's wherever every key is readable (`AllKeyed`).
- TrainSearch.DurationKey: the duration key is stated through its two parts, DurationHoursRead and DurationMinutesRead. There is no single lemma that the key of "Xh Ym" is X*60+Y. A duration without `h` makes the page throw; the model gives it no key.
- The booking page regenerates its seat map when the class changes. The model builds the map once, for the class the page settles on.

## Findings

| source | as written | input that shows it | evidently intended | confidence | as-written member | corrected member |
|---|---|---|---|---|---|---|
| src/components/bookings/PaymentPage.js:86-90 | base fare = round(total × 0.95) and GST = round(total × 0.05), both from the payable total | the booking page's 3800 discounted fare gives a total of 3990; the payment page shows base 3791 + GST 200 ≠ 3990, where the booking summary showed 3800 + 190 | show the booking's discounted fare as the base and its GST, so the lines add up to the total | not executed | Fares.SplitReceivedTotalDisagrees | Fares.FareLinesFor |
