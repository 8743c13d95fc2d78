# Donation form and receipt: a verified Dafny model

This project models the logic of a donation web front end. It has two parts:

- The donation form component (`src/components/payment/Payment.jsx`). It covers:
  - the five per-field rules (name, email, mobile number, amount, and a PAN required only for a tax exemption);
  - `validate`, which folds those rules into an error map;
  - the edits a user makes (typing into a field, the quick-select amount buttons, the tax-exemption toggle);
  - the submit handler, which validates, shows the loading screen, posts the order, then redirects or shows an error;
  - the one-shot backend liveness probe.
- The pure formatting on the success receipt (`src/components/success/Success.jsx`):
  - `formatAmount(amount / 100)`: `toFixed(2)`, then a regular expression that inserts thousands separators;
  - the `TransactionNumber` row, which shows the UTR for UPI or the card type for cards, with its first underscore replaced;
  - the empty-input branch of `formatDate`.

Modules:

- `Wrappers`: `Option`, standing for JavaScript's falsy `undefined`/`null`/`false` against a present value.
- `Strings`: the JavaScript primitives the code relies on:
  - the whitespace set that `trim` strips and `\s` matches, and `trim` itself;
  - ASCII digits;
  - the decimal text of a non-negative integer, with its round trip and length.
- `FieldRules`: the rules, the error map `validate` computes (`ValidationErrors`), and the lemmas about both. Everything here is pure.
- `DonationForm`: the component as a class, `PaymentForm`.
  - Its fields are the component's state.
  - Each event handler is a method that changes only the state the handler sets.
  - `Valid()` states the invariant the handlers keep: the loading screen shows exactly while an order reply is awaited or the browser is leaving; and every order ever posted passed validation.
- `Receipt`: the receipt formatting.
  - The separator regex is modelled literally: `\B`, plus a lookahead for groups of three digits not followed by a digit, tested at every position.
  - It is then proved equal to an independent right-to-left grouping, `GroupThousands`.

The two HTTP requests are not performed:

- the backend's answer is a parameter of the handler that receives it (`OrderReply`, `ProbeReply`);
- the order that was sent is recorded in `PaymentForm.posted`;
- the browser navigation is recorded in `PaymentForm.redirect`.

The submit handler is split at its `await` into `Submit` and `ReceiveOrderReply`.

Two points where the model follows the code rather than the written description of the component:

- Editing a field does not clear that field's error. `handleChange` only stores the value; errors change only on a failed submit.
- A probe response whose `alive` is falsy leaves the status at "checking"; only a thrown request sets "error".

## Model

| member | source | states |
|---|---|---|
| `Strings.TrimEmptyIff` | src/components/payment/Payment.jsx:54 | `value.trim()` is empty exactly when every character is JavaScript whitespace |
| `Strings.Trim` | src/components/payment/Payment.jsx:54 | the definition is the model of `String.prototype.trim`: whitespace and line terminators are stripped from both ends |
| `Strings.NatToDecimal` | src/components/payment/Payment.jsx:292 | `amt.toString()` is a non-empty digit string with a leading zero only for 0 |
| `Strings.DecimalRoundTrip` | src/components/payment/Payment.jsx:292 | reading the decimal text of `n` back gives `n` |
| `Strings.DecimalLength` | src/components/success/Success.jsx:15 | the decimal text of `n` has at most `k` digits iff `n < 10^k` |
| `FieldRules.Form.With` | src/components/payment/Payment.jsx:116-121 | `{ ...formData, [name]: value }` sets that field to the value and leaves every other field as it was |
| `FieldRules.NameRule` | src/components/payment/Payment.jsx:54 | the definition is the model of the name closure: "Name is required" when the trimmed value is empty, no error otherwise |
| `FieldRules.EmailPatternMatches` | src/components/payment/Payment.jsx:63 | the definition is the model of the unanchored test `/\S+@\S+\.\S+/`: some substring is non-space text, '@', non-space text, '.', non-space text |
| `FieldRules.EmailRule` | src/components/payment/Payment.jsx:61-65 | the definition is the model of the email closure: "Email is required" for "", "Email is invalid" when the pattern does not match, no error otherwise |
| `FieldRules.PhoneRule` | src/components/payment/Payment.jsx:72-77 | the definition is the model of the mobile-number closure: required for "", "must be 10 digits" unless exactly ten ASCII digits, no error otherwise |
| `FieldRules.IsPositiveNumber` | src/components/payment/Payment.jsx:86 | the definition is the model of the test `isNaN(value) or value <= 0` failing, on plain decimal numerals: trimmed, an optional '+', digits with at most one '.', some digit non-zero |
| `FieldRules.AmountRule` | src/components/payment/Payment.jsx:84-89 | "Amount is required" exactly for "", and no error exactly when the value is a positive number; any other value gets "Amount must be a positive number" |
| `FieldRules.PanRule` | src/components/payment/Payment.jsx:96-99 | the definition is the model of the PAN closure: "PAN Number is required for tax exemption" when the exemption is requested and the value is empty, no error otherwise |
| `FieldRules.FieldError` | src/components/payment/Payment.jsx:48-101 | the definition is the field configuration: each field's `validation` closure applied to that field's value |
| `FieldRules.ValidationErrors` | src/components/payment/Payment.jsx:105-114 | the definition is `validate`: the error map over the fields in configuration order, as `KeepReported` of the bound closures |
| `FieldRules.KeepReported` | src/components/payment/Payment.jsx:105-114 | the error map holds exactly the visited fields whose rule result is truthy |
| `FieldRules.KeepReportedSnoc` | src/components/payment/Payment.jsx:107-112 | one `forEach` step adds the field with its message exactly when its rule reports, otherwise leaves the map unchanged |
| `FieldRules.RuleReportsIffMessage` | src/components/payment/Payment.jsx:48-101 | every rule's message is non-empty, so a rule is truthy exactly when it returns a message |
| `FieldRules.ValidationErrorsExact` | src/components/payment/Payment.jsx:105-114 | `validate` maps exactly the failing fields, each to its rule's message, and is empty iff every rule passes |
| `FieldRules.NameRuleIff` | src/components/payment/Payment.jsx:54 | "Name is required" exactly when the name is empty or all whitespace; no error otherwise |
| `FieldRules.EmailPatternIff` | src/components/payment/Payment.jsx:63 | the unanchored `\S+@\S+\.\S+` matches iff some '@' has a non-space before it and a non-space run to a '.' that has a non-space after it |
| `FieldRules.EmailRuleExamples` | src/components/payment/Payment.jsx:61-65 | "" is "Email is required", "a@b.c" passes, "abc" and "a @b.c" are "Email is invalid" |
| `FieldRules.PhoneRuleIff` | src/components/payment/Payment.jsx:72-77 | "" is "Mobile number is required"; otherwise the rule passes iff the value is exactly ten ASCII digits |
| `FieldRules.PhoneRuleExamples` | src/components/payment/Payment.jsx:72-77 | "1234567890" passes; "", "12345", "12345678901" and "abcdefghij" fail with their messages |
| `FieldRules.AmountOnDigitStrings` | src/components/payment/Payment.jsx:84-89 | on a non-empty digit string the amount rule passes iff some digit is non-zero |
| `FieldRules.PositiveIntegerAmountPasses` | src/components/payment/Payment.jsx:84-89 | the decimal text of every positive integer passes the amount rule |
| `FieldRules.NegativeAmountFails` | src/components/payment/Payment.jsx:86-87 | a value starting with '-' fails with "Amount must be a positive number" |
| `FieldRules.PanRuleIff` | src/components/payment/Payment.jsx:96-99 | the PAN rule reports iff the exemption is requested and the PAN is empty |
| `FieldRules.TaxExemptionOnlyAffectsPan` | src/components/payment/Payment.jsx:96-99 | the exemption flag changes the error map only at PAN: never a PAN error without it, a PAN error with it iff the PAN is empty, all other entries equal |
| `FieldRules.KeepReportedWithout` | src/components/payment/Payment.jsx:105-114 | two rule sets that differ only at one field, where the second never reports, yield error maps equal apart from that field |
| `FieldRules.InitialFormRules` | src/components/payment/Payment.jsx:16-22 | on the initial form, name, email and phone are missing, the default amount "100" passes, and the PAN is not needed |
| `FieldRules.InitialFormErrors` | src/components/payment/Payment.jsx:105-114 | validating the initial form without the exemption gives exactly the name, email and phone errors |
| `DonationForm.SliceLast` | src/components/payment/Payment.jsx:37 | `slice(-n)` is the last `n` characters, or the whole string when it is shorter |
| `DonationForm.PaymentForm.constructor` | src/components/payment/Payment.jsx:16-29 | the initial state: form with amount "100", no errors, no exemption, status "checking", not loading, nothing posted |
| `DonationForm.PaymentForm.HandleChange` | src/components/payment/Payment.jsx:116-121 | only `formData` changes, and only the named field, to the value verbatim; errors, flag and loading stay |
| `DonationForm.PaymentForm.SelectAmount` | src/components/payment/Payment.jsx:292 | only the amount changes, to the preset's decimal text, which passes the amount rule |
| `DonationForm.PaymentForm.SetTaxExemption` | src/components/payment/Payment.jsx:236-246 | only the flag changes; an entered PAN is kept |
| `DonationForm.PaymentForm.Validate` | src/components/payment/Payment.jsx:105-114 | the loop over the field configuration returns exactly `ValidationErrors` of the current form and flag |
| `DonationForm.CollectReported` | src/components/payment/Payment.jsx:107-112 | the `forEach` that copies each reporting field's message into the error object builds exactly `KeepReported` of the field list |
| `DonationForm.PaymentForm.Submit` | src/components/payment/Payment.jsx:123-132 | with errors: they are stored, nothing is posted, loading stays off; without: errors untouched, loading on, the whole `formData` (a hidden PAN included) is posted |
| `DonationForm.PaymentForm.ReceiveOrderReply` | src/components/payment/Payment.jsx:133-146 | success redirects to the reply's URL and stays loading; a decline shows its message or "Failed to process payment."; a thrown error (a malformed success included) shows the generic message; both clear loading |
| `DonationForm.PaymentForm.ReceiveProbeReply` | src/components/payment/Payment.jsx:31-46 | truthy `alive` gives "alive" and the last three characters of `commitVersion`; falsy `alive` changes nothing; a thrown request gives "error" |
| `DonationForm.SubmitScenario` | src/components/payment/Payment.jsx:123-147 | from a fresh form, an order is sent iff the entered values validate, and the form is usable again unless the order was approved |
| `Receipt.TwoDigits` | src/components/success/Success.jsx:15 | the two zero-padded decimals of `toFixed(2)` read back as the paise |
| `Receipt.ToFixed2` | src/components/success/Success.jsx:15 | the definition is the model of `(amount / 100).toFixed(2)` for whole paise: the rupees in decimal, '.', the paise as two digits |
| `Receipt.DigitTriplesToEnd` | src/components/success/Success.jsx:15 | the definition is the model of the lookahead `(?=(\d{3})+(?!\d))`: three digits follow, then a non-digit, the end, or another such group |
| `Receipt.SeparatorAt` | src/components/success/Success.jsx:15 | the definition is the model of the whole pattern at one position: `\B` and the lookahead |
| `Receipt.InsertSeparatorsFrom` | src/components/success/Success.jsx:15 | the definition is the model of the global `replace(..., ",")`: a comma at every position where the pattern matches, every character kept |
| `Receipt.FormatAmount` | src/components/success/Success.jsx:14-16 | the definition is `formatAmount(amount / 100)`: the separator replace applied to the `toFixed(2)` text |
| `Receipt.GroupThousands` | src/components/success/Success.jsx:15 | the definition is the independent reference for the separator replace: the last three digits form a group and what precedes them is grouped the same way |
| `Receipt.TriplesOnFixed` | src/components/success/Success.jsx:15 | on `toFixed(2)` text the lookahead `(?=(\d{3})+(?!\d))` holds exactly at the integer-digit positions with a multiple of three digits left before the point |
| `Receipt.MultipleOf3Mod` | src/components/success/Success.jsx:15 | the lookahead's repeated groups of three cover a count exactly when it is divisible by three |
| `Receipt.SeparatorPositions` | src/components/success/Success.jsx:15 | on `toFixed(2)` text the separator pattern matches only inside the integer digits, before each position leaving a positive multiple of three digits to the point |
| `Receipt.InsertSeparatorsOnFixed` | src/components/success/Success.jsx:15 | the global replace leaves the point and decimals unchanged and groups only the integer digits |
| `Receipt.GroupScanIsGroupThousands` | src/components/success/Success.jsx:15 | the left-to-right comma insertion equals the right-to-left grouping in threes |
| `Receipt.FormatAmountIsGrouped` | src/components/success/Success.jsx:14-16 | `formatAmount(amount / 100)` is the rupees grouped in threes from the right, a point and the two-digit paise |
| `Receipt.GroupThousandsRemoveCommas` | src/components/success/Success.jsx:15 | grouping only inserts commas: deleting them gives the digits back |
| `Receipt.FormatAmountRemoveCommas` | src/components/success/Success.jsx:72 | deleting the commas gives `amount div 100`, ".", `amount mod 100` in two digits, and these read back as the amount |
| `Receipt.GroupThousandsWellGrouped` | src/components/success/Success.jsx:15 | the grouping of a non-empty digit string has a first group of 1-3 digits and then groups of exactly 3 |
| `Receipt.WellGroupedStartsWithDigit` | src/components/success/Success.jsx:15 | grouped text never starts with a comma |
| `Receipt.FormatAmountShape` | src/components/success/Success.jsx:14-16 | the result never starts with a comma, has well-grouped rupees, ends in "." plus two digits, and that point is its only one |
| `Receipt.GroupThousandsHasComma` | src/components/success/Success.jsx:15 | grouping inserts a comma iff there are more than three digits |
| `Receipt.FormatAmountCommaIff` | src/components/success/Success.jsx:15 | a separator appears iff the amount is at least 100000 paise |
| `Receipt.ReplaceFirstUnderscore` | src/components/success/Success.jsx:103 | `replace("_", " ")` turns only the first '_' into a space and keeps every other character and the length |
| `Receipt.ReplaceFirstUnderscoreKeepsLater` | src/components/success/Success.jsx:103 | underscores after the first stay, and a value without '_' is shown unchanged |
| `Receipt.TransactionRow` | src/components/success/Success.jsx:99-103 | a row exists iff the type is "UPI" or "CARD", labelled "UTR Number" or "Card Type" |
| `Receipt.TransactionRowValues` | src/components/success/Success.jsx:31-34 | the UPI row shows the UTR and the card row the card type, each after the first-underscore replacement; "NETBANKING" gets no row |
| `Receipt.FormatDate` | src/components/success/Success.jsx:18-19 | a missing or empty timestamp gives ""; any other is handed to the date formatter |

## Left out

- JSX rendering, styling, and conditional display are presentation only. This covers the hidden PAN field, the loading screen, and the selected-amount highlight.
- The maintenance-mode gate (`isMaintainanceMode`) depends on a configuration file that is not part of this model.
- The axios requests, `console.error` and `window.location.href` are foreign I/O. Their outcomes are handler parameters; the posted order and the redirect are recorded fields.
- `FieldRules.IsPositiveNumber`: `Number()` and the float comparison are modelled only for plain decimal numerals (trimmed, optional sign, digits with at most one '.'), compared exactly. Two consequences, both also affecting `FieldRules.AmountRule`: a plain decimal so small that it rounds to 0 in binary floating point (such as "0." followed by 323 zeros and a "1") passes in the model but is "Amount must be a positive number" in the component; and exponent, hexadecimal and "Infinity" forms such as "1e3", "0x10" and "Infinity" are positive numbers for `Number` and pass in the component, while the model rejects them as not positive.
- `Receipt.FormatAmountIsGrouped`: the amount is a non-negative whole number of paise. `toFixed(2)` of `amount / 100` is modelled exactly as div and mod, which matches the binary floating-point result only below 10^15 paise. Negative amounts are not modelled.
- `Receipt.TransactionRow`: the table is a two-key map. The `in` operator's matching of inherited prototype keys is not modelled.
- `Receipt.FormatDate`: `Intl.DateTimeFormat` is a parameter of the function, not modelled.
- `DonationForm.PaymentForm.ReceiveProbeReply`: a `commitVersion` that is present but not a string (so `slice` throws after "alive" was set) is not modelled; `commitVersion` is a string or absent.
- `DonationForm.PaymentForm.HandleChange`, `SelectAmount`, `SetTaxExemption` and `Submit` require that the loading screen is not shown. The form and its buttons are not rendered while loading (src/components/payment/Payment.jsx:153-159).
- React's batching of state updates, stale closures, and the development-mode double run of the probe effect are not modelled; each handler sees the state left by the previous one.
- `src/components/error/ErrorCard.jsx` (timer-driven auto-dismiss), `src/components/header/Header.jsx` (scroll and menu DOM effects) and `src/components/failure/Failure.jsx` (currency formatting, QR code) are not part of this model.
