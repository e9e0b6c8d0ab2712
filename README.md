# PLEDG landing page: the calculators, the waitlist and the page controls in Dafny

PLEDG offers rupee loans against pledged Bitcoin. Its landing page has two calculators:

- The loan calculator works out the instalment, the total interest, the tax a borrower avoids by not selling, and the collateral thresholds.
- The liquidation simulator shows, for a given Bitcoin price, where a margin call and a liquidation would happen.

The page also has a waitlist form, backed by a serverless endpoint that stores e-mail addresses. The header handles in-page navigation and the mobile menu. There is an FAQ accordion and a statistics strip that abbreviates large rupee amounts.

This project models those pieces and proves what they promise:

- `js_values.dfy` (`JsValues`) holds the JavaScript notions the other modules share:
  - `NaN` versus a number;
  - `a || b` on strings;
  - `startsWith` and `indexOf(...) !== -1`.
- `loan_calculator.dfy` (`LoanCalculator`) holds three things:
  - `calculateLoan`, as a pure function over reals.
  - The amortisation, with its zero-rate special case. A month-by-month balance recurrence is its partner: the instalment is proved to bring the balance to exactly zero after the last month.
  - The calculator's state, as a class whose input handlers keep the rate at or above 13.5% and the term in 1..12.
- `liquidation_simulator.dfy` (`LiquidationSimulator`) holds the drop, liquidation and margin-call prices and the safety buffer.
- `bitcoin_stats.dfy` (`BitcoinStats`) holds the abbreviation of large amounts, the sign and colour of the daily change, and the `|| 0` defaults for fields the price feed omits.
- `waitlist_api.dfy` (`WaitlistApi`) holds the `join-waitlist` handler and the schema rules it relies on:
  - trimming, lower-casing, the `required` rule and the e-mail pattern;
  - the pure `HandleRequest`, over the set of stored addresses;
  - a `Waitlist` class whose `Handle` method updates that set in place.
- The e-mail pattern is given two definitions:
  - a direct characterisation of the accepted strings;
  - the regular expression's own grammar.

  They are proved to accept the same strings.
- `waitlist_form.dfy` (`WaitlistForm`) holds the form's field record and how a response is classified. Its `Form` class holds the submit cycle: `isSubmitting`, `submitStatus` and `errorMessage`.
- `faq.dfy` (`Faq`) holds the question list and the accordion, at most one item of which is open.
- `header.dfy` (`Header`) holds the navigation targets, the scrolled look, the body scroll lock and `handleNavigation`.

Some facts from the code, as modelled:

- Money is a Dafny `real`.
- `Math.pow(1 + r, n)` is a recursive `Power` with a natural exponent. The term is always a whole number of months from 1 to 12.
- The store applies its schema setters (`trim`, `lowercase`) to the value in a `findOne` filter as well as to a new document. So "already on the waitlist" is decided on the normalised address, and the stored set only ever holds normalised addresses that match the pattern.
- The schema's `match` validator accepts the empty string. An address made only of whitespace is therefore refused with the `required` message, not the pattern message.
- The warning threshold is `loan / 0.716` and the liquidation threshold `loan / 0.8333`.
- The loan amount is not clamped: the slider spans 10,000–10,000,000 and the text box accepts any number.
- The endpoint reads only `email`, although the form posts all six fields.

## Model

| member | source | states |
|---|---|---|
| LoanCalculator.Power | src/components/LoanCalculator.tsx:43-44 | `Math.pow(b, n)` for a whole exponent; a positive base gives a positive power. |
| LoanCalculator.MonthlyRate | src/components/LoanCalculator.tsx:35 | The monthly rate is the annual percentage divided by 1200: twelve months of it make the annual figure, and it is zero exactly when the annual rate is. |
| LoanCalculator.EmiPayment | src/components/LoanCalculator.tsx:43-45 | The EMI L·r·(1+r)^n / ((1+r)^n − 1): zero for a zero loan, and for a positive loan more than the first month's interest L·r, so each payment reduces the balance. |
| LoanCalculator.Amortise | src/components/LoanCalculator.tsx:35-47 | The instalment and total interest, with the zero-rate branch. In both branches instalment × term = loan + interest; a zero rate or a zero loan costs no interest, and a zero loan has a zero instalment. |
| LoanCalculator.CollateralAtHalfLtv | src/components/LoanCalculator.tsx:31-32 | The collateral required is twice the loan. For a non-zero loan, the loan is exactly 50% of the collateral. |
| LoanCalculator.ZeroRateLoan | src/components/LoanCalculator.tsx:39-41 | At a zero rate, the instalment is the loan divided by the term, the interest is 0, and the total repayment is the loan. |
| LoanCalculator.EmiEquation | src/components/LoanCalculator.tsx:43-45 | For a positive monthly rate the denominator (1+r)^n − 1 is positive. The EMI satisfies EMI·((1+r)^n − 1) = L·r·(1+r)^n. |
| LoanCalculator.BalanceClosedForm | src/components/LoanCalculator.tsx:43-45 | After k months of paying m at monthly rate r, r·balance = L·r·(1+r)^k − m·((1+r)^k − 1). This is the closed form behind the EMI formula. |
| LoanCalculator.EmiRepaysLoan | src/components/LoanCalculator.tsx:35-47 | For every rate ≥ 0 and term ≥ 1, paying the computed instalment every month leaves a balance of exactly zero after the last month. |
| LoanCalculator.InstalmentsSumToRepayment | src/components/LoanCalculator.tsx:46-49 | The instalment times the number of months equals the total repayment, which equals loan plus interest. |
| LoanCalculator.GrowthBelowLinearBound | src/components/LoanCalculator.tsx:43-46 | (1+r)^n − 1 < r·n·(1+r)^n for r > 0 and n ≥ 1. This is why n instalments cost more than the loan. |
| LoanCalculator.InterestIsPositiveFraction | src/components/LoanCalculator.tsx:43-46 | At a positive rate the total interest is the loan times a factor that depends only on rate and term, and that factor is positive. |
| LoanCalculator.EmiIsLinear | src/components/LoanCalculator.tsx:43-45 | The EMI is proportional to the loan: the instalment for L is L times the instalment for one rupee. |
| LoanCalculator.InterestFactorPositive | src/components/LoanCalculator.tsx:43-46 | At a positive rate, one rupee borrowed costs a positive amount of interest. |
| LoanCalculator.InterestSign | src/components/LoanCalculator.tsx:39-47 | The interest on a non-negative loan is non-negative. It is strictly positive when both loan and rate are positive. |
| LoanCalculator.OneMonthInterest | src/components/LoanCalculator.tsx:43-46 | Over a one-month term the interest is exactly one month's rate on the loan. |
| LoanCalculator.LargerLoanCostsMore | src/components/LoanCalculator.tsx:30-47 | A larger loan needs more collateral. At a positive rate it also costs more interest. |
| LoanCalculator.AnnuityClosedForm | src/components/LoanCalculator.tsx:43-45 | The annuity factor a = Σ(1+r)^-k over the n months satisfies r·(1+r)^n·a = (1+r)^n − 1. |
| LoanCalculator.AnnuityShrinksWithRate | src/components/LoanCalculator.tsx:43-45 | A higher monthly rate never gives a larger annuity factor. |
| LoanCalculator.EmiTimesAnnuity | src/components/LoanCalculator.tsx:43-45 | The annuity factor is positive, and the EMI times the annuity factor is the loan: the n instalments are worth exactly the loan today. |
| LoanCalculator.InterestFactorGrowsWithRate | src/components/LoanCalculator.tsx:43-46 | The interest per rupee borrowed does not fall as the monthly rate rises. |
| LoanCalculator.HigherRateCostsMore | src/components/LoanCalculator.tsx:35-47 | For a loan ≥ 0 and rates 0 ≤ r1 ≤ r2, the total interest at r1 is at most the total interest at r2. This includes the zero-rate branch. |
| LoanCalculator.CalculateLoan | src/components/LoanCalculator.tsx:30-74 | The record carries the loan it was computed for. Repayment minus interest is the loan. No tax is paid with the loan, the saving is the whole tax on sale, and the net benefit is the saving less the interest. |
| LoanCalculator.TaxAndBenefit | src/components/LoanCalculator.tsx:51-56 | The tax on sale and the saving are 31.2% of the gains. The net benefit is negative exactly when the interest exceeds that tax. |
| LoanCalculator.ThresholdOrdering | src/components/LoanCalculator.tsx:58-60 | For a non-zero loan, the warning and liquidation collaterals are where the loan-to-value ratio reaches 71.6% and 83.33%. For a positive loan: loan < liquidation < warning < pledged collateral. |
| LoanCalculator.NegativeBenefitExample | src/components/LoanCalculator.tsx:30-56 | With no gains, a ₹10 lakh one-month loan at 20% shows a negative net benefit. |
| LoanCalculator.StripCommas | src/components/LoanCalculator.tsx:116 | The result of `replace(/,/g, '')` has no comma and is no longer than its input. |
| LoanCalculator.StripCommasKeepsOthers | src/components/LoanCalculator.tsx:116 | Removing commas distributes over concatenation, so every other character is kept in order. |
| LoanCalculator.StripCommasIdempotent | src/components/LoanCalculator.tsx:116 | Removing commas twice is the same as removing them once. |
| LoanCalculator.NoCommaUnchanged | src/components/LoanCalculator.tsx:116 | Text without commas is left as it is. |
| LoanCalculator.ApplyRateEvent | src/components/LoanCalculator.tsx:173-179 | A typed rate is taken only when it is a number ≥ 13.5; otherwise the rate is unchanged. On blur, a rate below 13.5 is raised to 13.5. |
| LoanCalculator.BlurKeepsValidRate | src/components/LoanCalculator.tsx:177-179 | Blurring a rate that is already ≥ 13.5 leaves it unchanged. |
| LoanCalculator.RateFloorHolds | src/components/LoanCalculator.tsx:173-179 | From a rate ≥ 13.5, any sequence of typing and blur events keeps the rate ≥ 13.5. |
| LoanCalculator.TermOptions | src/components/LoanCalculator.tsx:160 | The term select offers exactly the months 1 to 12, in order. |
| LoanCalculator.CalculatorState.constructor | src/components/LoanCalculator.tsx:24-28 | Initial state: ₹1,00,000 loan, ₹50,000 gains, 12 months, 13.5%, and no calculation. |
| LoanCalculator.CalculatorState.OnLoanText | src/components/LoanCalculator.tsx:115-118 | The loan becomes the number read from the comma-stripped text. A NaN leaves the loan unchanged. Nothing else changes. |
| LoanCalculator.CalculatorState.OnCapitalGainsText | src/components/LoanCalculator.tsx:141-144 | The same rule for the capital gains. |
| LoanCalculator.CalculatorState.OnLoanSlider | src/components/LoanCalculator.tsx:102-110 | A slider value in 10,000..10,000,000 becomes the loan. Nothing else changes. |
| LoanCalculator.CalculatorState.OnCapitalGainsSlider | src/components/LoanCalculator.tsx:128-136 | A slider value in 0..10,000,000 becomes the gains. Nothing else changes. |
| LoanCalculator.CalculatorState.OnTermSelect | src/components/LoanCalculator.tsx:155-162 | An offered month count becomes the term. Nothing else changes. |
| LoanCalculator.CalculatorState.OnRateInput | src/components/LoanCalculator.tsx:173-176 | The rate follows the typing rule. The 13.5% floor and the other fields are kept. |
| LoanCalculator.CalculatorState.OnRateBlur | src/components/LoanCalculator.tsx:177-179 | The rate follows the blur rule and afterwards is at least 13.5, whatever it was before. |
| LoanCalculator.CalculatorState.Calculate | src/components/LoanCalculator.tsx:189-190 | The stored calculation becomes `calculateLoan` of the current inputs. The inputs are unchanged. |
| LoanCalculator.CalculatorState.ShowGuide | src/components/LoanCalculator.tsx:212 | The calculation is cleared. The inputs are unchanged. |
| LiquidationSimulator.DropPercentage | src/components/LiquidationSimulator.tsx:7-9 | The drop is exactly 3333/8333 of the price, strictly between 0 and 1. |
| LiquidationSimulator.LiquidationPrice | src/components/LiquidationSimulator.tsx:10 | The liquidation price is 5000/8333 of the price: the price minus it is exactly the price times the drop. |
| LiquidationSimulator.MarginCallPrice | src/components/LiquidationSimulator.tsx:11 | The margin call comes after 80% of the fall from the price to the liquidation price. |
| LiquidationSimulator.SafetyBuffer | src/components/LiquidationSimulator.tsx:66 | `(btcPrice − liquidationPrice) / btcPrice × 100`, defined for a non-zero price, is always strictly between 0 and 100. |
| LiquidationSimulator.LiquidationPriceMeetsThreshold | src/components/LiquidationSimulator.tsx:8-10 | The liquidation price is where a loan of half today's collateral value reaches the 83.33% threshold. |
| LiquidationSimulator.ThresholdsBelowPrice | src/components/LiquidationSimulator.tsx:9-11 | For a positive price: 0 < liquidation price < margin-call price < price. |
| LiquidationSimulator.ThresholdsScale | src/components/LiquidationSimulator.tsx:10-11 | Both thresholds are linear in the price. |
| LiquidationSimulator.SafetyBufferIsDrop | src/components/LiquidationSimulator.tsx:66 | The safety buffer is the constant drop in percent, the same for every non-zero price. |
| LiquidationSimulator.SliderPriceIsPositive | src/components/LiquidationSimulator.tsx:29-37 | Every slider price is positive, so the buffer is always defined and always equals the drop. |
| BitcoinStats.FormatLargeNumber | src/components/BitcoinStats.tsx:78-89 | Every formatted amount carries the rupee sign. |
| BitcoinStats.TierBands | src/components/BitcoinStats.tsx:78-89 | Each suffix T, B, M, K or none is chosen exactly on its band: ≥10^12, [10^9,10^12), [10^6,10^9), [10^3,10^6), below 10^3. |
| BitcoinStats.ScaledTimesDivisor | src/components/BitcoinStats.tsx:78-89 | The scaled figure, before rounding, times the suffix's divisor recovers the amount. |
| BitcoinStats.ScaledInUnitRange | src/components/BitcoinStats.tsx:78-89 | Between a thousand and a trillion the scaled figure, before rounding, is in [1, 1000). Below a thousand it is the amount itself. |
| BitcoinStats.ChangePrefix | src/components/BitcoinStats.tsx:102 | The label prefix is "+" exactly for a change ≥ 0 and empty exactly for a fall. |
| BitcoinStats.ChangeColour | src/components/BitcoinStats.tsx:104 | The card is green exactly for a change ≥ 0 and red exactly for a fall. |
| BitcoinStats.ShownChange | src/components/BitcoinStats.tsx:102-104 | `stats?.changePercentage \|\| 0`: 0 before statistics exist, the statistics' percentage change afterwards. |
| BitcoinStats.MarketCapCard | src/components/BitcoinStats.tsx:106-109 | `formatLargeNumber(stats?.marketCap \|\| 0)`: carries the rupee sign, scales back to the market cap, and shows an unscaled 0 without statistics. |
| BitcoinStats.PrefixMatchesColour | src/components/BitcoinStats.tsx:102-104 | The label carries "+" exactly when the card is green, which is exactly when the change is ≥ 0. This includes a change of 0. |
| BitcoinStats.OrZero | src/components/BitcoinStats.tsx:30-34 | A present number is kept. A missing field or NaN reads as 0. |
| BitcoinStats.StatsFromFeed | src/components/BitcoinStats.tsx:29-35 | The percentage change is read from the same feed field as the absolute change. |
| BitcoinStats.MissingFieldsReadZero | src/components/BitcoinStats.tsx:29-35 | An omitted price, market cap, volume or change reads as 0. A NaN price reads as 0. A present price is kept. |
| BitcoinStats.NoStatsDefaults | src/components/BitcoinStats.tsx:102-109 | Once loading is over with no statistics, the change shows "+" in green and the market cap is an unscaled ₹0. |
| WaitlistApi.Trim | api/join-waitlist.js:46 | The result has no JavaScript whitespace at either end. |
| WaitlistApi.TrimIsSlice | api/join-waitlist.js:46 | The trimmed value is a contiguous slice of the input, with only whitespace before it and after it. |
| WaitlistApi.TrimmedIsFixed | api/join-waitlist.js:46 | Trimming a string that is already trimmed changes nothing. |
| WaitlistApi.ToLower | api/join-waitlist.js:47 | Lower-casing keeps the length and maps each character through `LowerChar`. That maps the ASCII capitals, and the Kelvin sign U+212A to 'k'. |
| WaitlistApi.Normalise | api/join-waitlist.js:46-47 | The schema setters, trim then lowercase: the result has no whitespace at either end and is no longer than the input. |
| WaitlistApi.NormaliseIdempotent | api/join-waitlist.js:46-47 | Trim then lower-case is idempotent, so a stored address normalises to itself. |
| WaitlistApi.MatchesEmailPattern | api/join-waitlist.js:49 | Dotted words, '@', dotted words, a dot and two or three final word characters. An accepted address has at least six characters and starts and ends with a word character. |
| WaitlistApi.PatternShape | api/join-waitlist.js:49 | An accepted address has exactly one '@'. Every other character is a word character, dot or hyphen, and none is whitespace. |
| WaitlistApi.PatternIsRegex | api/join-waitlist.js:49 | The characterisation of the pattern accepts exactly the strings that the regular expression's grammar derives. |
| WaitlistApi.RunIsDottedWords | api/join-waitlist.js:49 | `\w+([\.-]?\w+)*` derives exactly the strings of word characters joined by single dots or hyphens. |
| WaitlistApi.DomainIsRegexDomain | api/join-waitlist.js:49 | The domain part `\w+([\.-]?\w+)*(\.\w{2,3})+` is equivalent to dotted words, a dot, then two or three final word characters. |
| WaitlistApi.PatternAcceptsExample | api/join-waitlist.js:49 | "a@b.in" is accepted. |
| WaitlistApi.PatternRejectsExamples | api/join-waitlist.js:49 | A one-letter final group ("a@b.c") and a domain without a dot ("a@b") are refused. |
| WaitlistApi.HandleRequest | api/join-waitlist.js:66-94 | Status 201 is returned exactly when the store changes. The only possible change is adding the normalised address. |
| WaitlistApi.NonPostRefused | api/join-waitlist.js:91-93 | Any method but POST gets 405 "Method not allowed" and the store is untouched. |
| WaitlistApi.MissingEmailRefused | api/join-waitlist.js:73-77 | A missing or empty email gets 400 "Email is required". |
| WaitlistApi.ExistingEmailAccepted | api/join-waitlist.js:79-83 | An address whose normal form is stored gets 200 with success. The store is unchanged. |
| WaitlistApi.KelvinSignIsLowered | api/join-waitlist.js:47 | "\u212A@ab.com" normalises to "k@ab.com", and a new sign-up with it is created with 201. |
| WaitlistApi.NewEmailCreated | api/join-waitlist.js:85-86 | A new address whose normal form matches the pattern gets 201. The entry holds the normalised address, the request time and source "website", and that address is added to the store. |
| WaitlistApi.InvalidEmailRefused | api/join-waitlist.js:48-51 | A new address whose normal form fails the pattern gets 400 with the validation error "…email: Please fill a valid email address". |
| WaitlistApi.BlankEmailRefused | api/join-waitlist.js:44 | An address of spaces trims to "", skips the pattern, and fails `required` with "…email: Please provide an email". |
| WaitlistApi.SignupIdempotent | api/join-waitlist.js:79-86 | Repeating a request, at any later time, leaves the store as the first request left it. |
| WaitlistApi.StoredEmailsStayValid | api/join-waitlist.js:41-52 | If every stored address is normalised and matches the pattern, that stays so after any request. |
| WaitlistApi.Waitlist.constructor | api/join-waitlist.js:64 | The collection starts empty. |
| WaitlistApi.Waitlist.Handle | api/join-waitlist.js:66-94 | The in-place handler returns the reply of `HandleRequest` and leaves the stored set equal to `HandleRequest`'s new set. |
| WaitlistForm.WaitlistData.With | src/components/WaitlistForm.tsx:30-33 | The named field takes the new value. Every other field is unchanged. |
| WaitlistForm.WithLaws | src/components/WaitlistForm.tsx:30-33 | Writing a field's own value changes nothing. Writing twice keeps the last value. |
| WaitlistForm.IsJson | src/components/WaitlistForm.tsx:50-51 | `contentType && contentType.indexOf("application/json") !== -1`: a JSON type is a present header at least as long as "application/json". |
| WaitlistForm.JsonContentTypes | src/components/WaitlistForm.tsx:50-51 | "application/json; charset=utf-8" reads as JSON. "text/html" and a missing header do not. |
| WaitlistForm.Classify | src/components/WaitlistForm.tsx:49-60 | The cases are:<br>• A thrown request keeps its message.<br>• A non-JSON body fails with its text or "Server error occurred".<br>• A JSON reply that is not ok fails with its message or "Failed to join waitlist".<br>• Success happens exactly for an ok JSON reply. |
| WaitlistForm.ResponseFailuresHaveMessage | src/components/WaitlistForm.tsx:53-60 | A failure caused by a response always has a non-empty message. |
| WaitlistForm.ErrorBanner | src/components/WaitlistForm.tsx:210 | `errorMessage \|\| 'Something went wrong. Please try again.'`: the banner is never empty, and a non-empty message is shown as it is. |
| WaitlistForm.FailureBannerIsSpecific | src/components/WaitlistForm.tsx:210 | After any failure the stored message is non-empty, so the banner shows it and never the generic text. |
| WaitlistForm.Form.constructor | src/components/WaitlistForm.tsx:18-28 | All six fields are empty, the form is not submitting, the status is idle, and there is no error. |
| WaitlistForm.Form.HandleInputChange | src/components/WaitlistForm.tsx:30-33 | Only the named field changes. The status and the error are kept. |
| WaitlistForm.Form.StartSubmit | src/components/WaitlistForm.tsx:36-38 | The form is submitting and the status is reset to idle. |
| WaitlistForm.Form.FinishSubmit | src/components/WaitlistForm.tsx:40-77 | Submitting ends in every case.<br>• Success sets the status to success, clears every field and keeps the old error.<br>• Failure sets the status to error, keeps the fields and stores the message, or "Failed to join waitlist" when the message is empty. |
| WaitlistForm.Form.HandleSubmit | src/components/WaitlistForm.tsx:35-78 | The whole cycle ends not submitting.<br>• Success sets the status to success, clears the fields and keeps the old error message.<br>• Failure sets the status to error, keeps the fields and stores the message, or "Failed to join waitlist" when the message is empty. |
| Faq.DisplayFaqs | src/components/FAQ.tsx:63 | A passed list is shown as given, even an empty one. Otherwise the list shown is exactly the nine default questions. |
| Faq.Toggled | src/components/FAQ.tsx:18-20 | Toggling the open item closes everything. Toggling any other item makes it the only open one. |
| Faq.ToggleTwice | src/components/FAQ.tsx:18-20 | Toggling the same item twice returns to all closed, or to the same open item. |
| Faq.Accordion.constructor | src/components/FAQ.tsx:16 | No item is open at first. |
| Faq.Accordion.Toggle | src/components/FAQ.tsx:18-20 | After a toggle, either nothing is expanded or exactly the toggled item is. |
| Faq.Accordion.IsExpanded | src/components/FAQ.tsx:95-108 | `openIndex === index`: an item is expanded exactly when its index is the stored open index. |
| Faq.AtMostOneExpanded | src/components/FAQ.tsx:95-108 | In any accordion state, two items that are both expanded are the same item. |
| Header.TargetId | src/components/Header.tsx:40-41 | A link has a target id exactly when it starts with "/#", and the link is "/#" followed by that id. |
| Header.NavigationTargets | src/components/Header.tsx:30-36 | All four links are in-page and target features, how-it-works, security and faq. The waitlist button targets waitlist. |
| Header.BodyOverflow | src/components/Header.tsx:22-28 | The body is "hidden" exactly while the menu is open, and "unset" otherwise. |
| Header.HeaderState.constructor | src/components/Header.tsx:9-10 | The menu starts closed, the header is not scrolled, and the body is not locked. |
| Header.HeaderState.OnScroll | src/components/Header.tsx:14-16 | The header is scrolled exactly when the page is past 20 pixels. The menu is untouched. |
| Header.HeaderState.OpenMenu | src/components/Header.tsx:102 | The menu opens and the body is locked. |
| Header.HeaderState.CloseMenu | src/components/Header.tsx:124 | The menu closes and the body is unlocked. |
| Header.HeaderState.HandleNavigation | src/components/Header.tsx:38-49 | The menu always closes. A scroll target is produced exactly for an in-page link whose element exists, and it is that link's target id. |
| JsValues.ContainsFrom | src/components/WaitlistForm.tsx:51 | The search from position i succeeds exactly when the substring occurs at some position ≥ i. |
| JsValues.SearchFromStart | src/components/WaitlistForm.tsx:51 | A search from position 0, the scan `IsJson` runs for `indexOf(...) !== -1`, succeeds exactly when the substring occurs anywhere. |
| JsValues.OrElse | src/components/WaitlistForm.tsx:74 | `s \|\| fallback` on strings: an empty string yields the fallback, and any other string yields itself. |

## Left out

- Floating point: amounts are exact reals. IEEE rounding, `toFixed`, `toLocaleString`, `formatCurrency`, `formatNumber` and `formatPrice` are not modelled. So the displayed digits, and the rounding of `₹${num.toFixed(0)} ` below a thousand, are not captured.
- LoanCalculator.CalculatorState.OnLoanText: JavaScript's `Number()` parsing of text is a parameter (`toNumber`), not modelled. A value of `Infinity` is outside the reals.
- LoanCalculator.CalculateLoan: requires a rate ≥ 0 and a term ≥ 1. A negative rate or a zero term cannot reach it, because the handlers keep the rate ≥ 13.5 and the term in 1..12. Its own contract states the record's relations; the amounts themselves are stated by the lemmas beside it.
- The results panel, the comparison table and the guide (CalculatorResults, BitcoinComparison, CalculatorGuide) are presentational and are not part of this model.
- BitcoinStats: the one-time axios fetch, the localStorage fallback and the static fallback record used when it fails, the loading flag ("..."), and the price feed itself are left out. A feed record is a parameter; which fields it holds is all that matters.
- WaitlistApi: the database connection, its caching across invocations, and concurrent requests are left out. A race between two identical requests (caught by the unique index) is not modelled.
- WaitlistApi.ToLower: maps only the ASCII capitals and the Kelvin sign U+212A. JavaScript's `toLowerCase` also maps other non-ASCII letters, some of them to two code points (U+0130 becomes "i" followed by U+0307). None of those results is an ASCII word character, so an address holding one fails the pattern either way, and the reply and the store are unaffected.
- WaitlistApi.MatchesEmailPattern: decides what the regular expression accepts, not how long it takes. A backtracking engine can take exponential time on `^\w+([\.-]?\w+)*@…` for a long run of word characters that then fails to match. That possible time-out of the handler is not modelled.
- WaitlistApi.NewEmailCreated: the 201 reply's `data` is the saved document, which also carries the generated `_id` and the version key `__v`. `Entry` holds neither, so they are not modelled.
- WaitlistApi.HandleRequest: a request without a body, and an `email` that is a truthy non-string (a number, an object), are not modelled. The email is an optional string, and `console.error` logging is dropped.
- WaitlistForm: the `fetch` call is abstracted to what came back (`FetchResult`). A JSON body that fails to parse is a `Rejected` result. A reply of JSON `null`, which would throw on `data.message`, is not modelled.
- WaitlistForm: the browser's own checks of the `required` inputs, which can stop a submit before `handleSubmit` runs, are left out.
- Faq: the answers' prose is not modelled; an item is known by its question.
- Header: `document.getElementById` is a parameter (`elementExists`). The 300 ms delay and the smooth scroll are left out; navigation yields the id of the element to scroll to. Route navigation by `Link` for a link that is not in-page is left out, and the four links are all in-page.
- Animations, styling and the background canvas are left out.
