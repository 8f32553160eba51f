# Shipping calculator: a verified model of the quote core

This project models the core of a shipping-rate calculator. A user enters
an origin address, a destination address and a package in three steps. The
calculator prices the shipment with five couriers and shows the quotes,
cheapest first, with a "cheapest" and a "fastest" badge.

The model has six modules:

- `Types` (`types.dfy`): the records: addresses, packages, quotes, the
  complete shipment and the session's partial shipment, plus the literal
  unions (country code, weight unit, service type, form step).
- `Validators` (`validators.dfy`): the address schema, the package schema
  and the whole-shipment schema, written as predicates over strings and
  reals. They include ECMAScript `trim`, the "not only digits" pattern, the
  decimal-text pattern and how `String(number)` writes a number.
- `Pricing` (`pricing.dfy`): the quote engine. It covers the distance and
  volume factors, the three fixed carriers and the two route-dependent
  ones, the 10% tax rounded to cents, and a stable insertion sort by total.
  The sort is a method proved equal to a functional reference sort. The
  engine's answer is proved sorted, a stable reordering of the generated
  quotes, and correct in carrier set, tax, delivery days, service types,
  distinct ids and positivity.
- `Results` (`results.dfy`): the cheapest and fastest badges, computed by a
  strict-`<` reduce in which the first minimum wins. This module also has
  the header's look-up by id and the four-way choice of the results panel.
- `Progress` (`progress.dfy`): the stepper's active index and the
  one-panel-per-step rule.
- `QuoteSession` (`session.dfy`): the provider state as a class `Session`
  whose methods are the panels' handlers. They cover:
  - the origin and destination submits, with the international flag;
  - both Back buttons;
  - the search sequence (begin, fetch resolves, fetch rejects);
  - the retry of the empty-results panel.
  The invariant `Valid()` says:
  - a step is reached only once the earlier entries exist;
  - loading means exactly that a fetch or the retry delay is pending;
  - a pending fetch is for the stored shipment.

The quote engine is deterministic once its simulated delay is removed.
`Session.FinishOk` therefore shows exactly `Pricing.QuotesFor` of the
request that `Session.BeginSearch` started.

The code behaves as follows where a reader might expect otherwise, and
the model does the same:

- The old quotes are not cleared when a new search starts. They stay in
  the state while loading, and only the panel choice hides them.
- There is no reset operation.
- The only guard against a second search or a Back press during loading
  is the disabled button.
- Editing the origin after the destination leaves the international flag
  as it was (`QuoteSession.StaleFlagAfterOriginEdit`).
- The whole-shipment check of the two countries still runs when a part
  fails only on checks that mark the value as failed without stopping its
  parse: city, state and postal-code checks, the weight bounds and the
  positive-dimension check. It is skipped when a country or unit is
  outside its enum, or a number is missing, of the wrong type or off the
  pattern, because those stop the parse of the whole object. A
  one-letter origin city on an Egypt-to-Egypt route flagged international
  therefore reports both issues
  (`Validators.ShortCityKeepsCountryIssue`). The model follows zod 3,
  where a transform placed after a failed refinement stops the parse.

## Model

| member | source | states |
|---|---|---|
| Types.ParseCountry | src/types/index.ts:1 | exactly "SA", "EG" and "US" are country codes, and each reads back to its own text |
| Types.ParseUnit | src/types/index.ts:2 | exactly "kg" and "lb" are weight units, and each reads back to its own text |
| Types.CountryTextRoundTrip | src/types/index.ts:1 | printing a country code and reading it back gives the same code |
| Types.UnitTextRoundTrip | src/types/index.ts:2 | printing a unit and reading it back gives the same unit |
| Validators.Trim | src/utils/validators.ts:9 | the result is no longer than the input and neither starts nor ends with whitespace or a line terminator |
| Validators.TrimIsMiddle | src/utils/validators.ts:9 | the trimmed text is a contiguous middle part of the input, and every character before and after it is whitespace or a line terminator |
| Validators.TrimIdempotent | src/utils/validators.ts:9 | trimming twice is the same as trimming once |
| Validators.AddressErrorsExact | src/utils/validators.ts:5-27 | an address error is reported exactly when its rule is broken: city length 2–50 after trim and not only digits; state absent, empty, or not only digits after trim; country one of the three codes; postal code length 3–10 after trim |
| Validators.NoBrokenRuleIffAccepted | src/utils/validators.ts:5-27 | no error is reported if and only if every address rule holds |
| Validators.ValidateAddress | src/utils/validators.ts:5-27 | success exactly when the address is accepted; the result holds the trimmed city, street and postal code, the parsed country, and the state: an empty state is kept as the empty text, any other state is trimmed; on failure the errors are non-empty and are exactly the broken rules |
| Validators.AddressRoundTrip | src/utils/validators.ts:5-27 | an address the schema produced passes the schema again unchanged |
| Validators.DecimalValue | src/utils/validators.ts:35-38 | the number a decimal text stands for is non-negative, and its floor is the value of the digits before the dot |
| Validators.DecimalValueExact | src/utils/validators.ts:35-38 | the number a decimal text stands for, multiplied by ten once per digit after the dot, is the value of all its digits read without the dot; without a dot it is the value of the digits |
| Validators.FractionScaled | src/utils/validators.ts:38 | the digits after the dot are worth their whole-number value divided by ten once per digit |
| Validators.WholeNumberAppend | src/utils/validators.ts:38 | the value of two digit strings written one after the other is the first value shifted past the second's digits plus the second value |
| Validators.NumberOf | src/utils/validators.ts:29-38 | a raw value stands for a number exactly when it is text matching the decimal pattern or a number `String` writes in plain decimal; that number is non-negative; a text input stands for the decimal value of the text, and a number input for itself |
| Validators.DecimalTextExamples | src/utils/validators.ts:35 | "01", "00.5", ".5", "1." and "-1" are refused; "0.5" is accepted and reads as 0.5 |
| Validators.RequiredNumber | src/utils/validators.ts:29-38 | a required numeric field succeeds exactly when its value is written as the decimal pattern allows, and then gives that number; it fails as "required" exactly when it is empty text or undefined; every error names the field |
| Validators.WeightResult | src/utils/validators.ts:55-57 | the weight succeeds exactly when it is a decimal in [0.1, 1000]; it fails as below-minimum exactly under 0.1 and as above-maximum exactly over 1000 |
| Validators.WeightBelowMinimumExample | src/utils/validators.ts:56 | "0.05" fails as below the minimum |
| Validators.WeightAboveMaximumExample | src/utils/validators.ts:57 | "1000.01" fails as above the maximum |
| Validators.WeightAtMinimumExample | src/utils/validators.ts:56 | "0.1" is accepted as 0.1 |
| Validators.WeightMissingExample | src/utils/validators.ts:32 | an empty weight fails as required |
| Validators.DimensionResult | src/utils/validators.ts:40-52 | an optional dimension is absent exactly when it is "", null or undefined; a present one succeeds exactly when it is a decimal greater than 0 |
| Validators.DimensionExamples | src/utils/validators.ts:40-59 | "0" fails as not positive; "" and null are absent |
| Validators.ValidatePackage | src/utils/validators.ts:54-70 | success exactly when weight, every dimension and the unit are accepted; the result carries the numbers they denote, with blank dimensions absent; on failure a field is reported if and only if it is not accepted |
| Validators.PackageErrorsExact | src/utils/validators.ts:54-70 | every package field that fails is reported, and no field that passes |
| Validators.PackageErrorsNone | src/utils/validators.ts:54-70 | no package error is reported if and only if every field is accepted |
| Validators.ValidatedPackageInBounds | src/utils/validators.ts:54-66 | every accepted package has a weight in [0.1, 1000] and positive dimensions |
| Validators.ValidateShippingForm | src/utils/validators.ts:72-91 | a shipment passes exactly when its three parts pass and, if it is flagged international, its two countries differ; a domestic flag puts no constraint on the countries; a refused shipment has at least one issue, and the country issue is among them exactly when no part stopped the parse and the flag is set on two equal countries |
| Validators.ShippingFormIssues | src/utils/validators.ts:72-91 | the issues of a refused shipment are exactly each broken origin rule, each broken destination rule, each package field error, and the country issue when the object-level check ran and failed |
| Validators.PackageAbortsIffReported | src/utils/validators.ts:29-70 | a package stops the parse exactly when one of its reported errors is a missing or wrongly typed value, text off the pattern, or an unknown unit |
| Validators.OnlyOriginFails | src/utils/validators.ts:72-91 | when only the origin fails and its country is supported, the issues are the origin's errors followed by the country issue exactly when the shipment is flagged international between equal countries |
| Validators.ShortCityKeepsCountryIssue | src/utils/validators.ts:72-91 | a one-letter origin city on an Egypt-to-Egypt shipment flagged international reports the city issue and then the country issue |
| Validators.CityOfDigitsRefused | src/utils/validators.ts:12 | a city of digits only is refused |
| Validators.CityNameAccepted | src/utils/validators.ts:7-12 | "Cairo" is accepted |
| Validators.CityTrimmedBeforeLength | src/utils/validators.ts:7-12 | " C " is refused: the length is measured after trimming |
| Pricing.BaseDistance | src/services/mockCourierAPI.ts:30 | the distance factor is positive, 500 for a domestic route and ten times that for an international one |
| Pricing.InternationalTenfold | src/services/mockCourierAPI.ts:30 | an international route's distance factor is ten times a domestic one's |
| Pricing.VolumeFactor | src/services/mockCourierAPI.ts:34-37 | the volume factor is 0 unless all three dimensions are present and non-zero; then it is their product divided by 1000 |
| Pricing.Candidates | src/services/mockCourierAPI.ts:40-120 | 4 quotes on an international or US-origin route, 3 otherwise; DHL, FedEx and UPS first in that order, then Aramex on an international route or USPS on a domestic US one; tax and total still 0 |
| Pricing.WithTax | src/services/mockCourierAPI.ts:123-127 | only tax and total change; both are whole cents within half a cent of 10% and 110% of the base price |
| Pricing.AddTax | src/services/mockCourierAPI.ts:123-127 | the map keeps the number and order of the quotes and fills in each one's tax and total |
| Pricing.Insert | src/services/mockCourierAPI.ts:130 | inserting one quote makes the list one longer (order and contents: `Pricing.InsertSorted`) |
| Pricing.SortByTotal | src/services/mockCourierAPI.ts:130 | the reference sort keeps the length (order, permutation and stability: `Pricing.SortByTotalSorted`, `Pricing.SortByTotalStable`) |
| Pricing.QuotesFor | src/services/mockCourierAPI.ts:19-131 | the engine's answer is ordered by total, a stable reordering of the taxed candidates, and a permutation of them |
| Pricing.VolumeFactorNonNegative | src/services/mockCourierAPI.ts:34-37 | with absent or positive dimensions the volume factor is non-negative, and positive exactly when all three dimensions are given |
| Pricing.Round2 | src/services/mockCourierAPI.ts:125-126 | the result is a whole number of cents within half a cent of the input, and a half cent rounds away from zero |
| Pricing.Round2Idempotent | src/services/mockCourierAPI.ts:125-126 | rounding to cents twice is the same as rounding once |
| Pricing.Round2Examples | src/services/mockCourierAPI.ts:125-126 | 0.125 rounds to 0.13, -0.125 to -0.13, 0.124 to 0.12 |
| Pricing.InsertSorted | src/services/mockCourierAPI.ts:130 | inserting into a sorted list keeps it sorted and adds exactly that quote |
| Pricing.SortByTotalSorted | src/services/mockCourierAPI.ts:130 | the reference sort is ordered by total and is a permutation of its input |
| Pricing.SortByTotalStable | src/services/mockCourierAPI.ts:130 | the reference sort keeps the input order among quotes of equal total |
| Pricing.StableSortUnique | src/services/mockCourierAPI.ts:130 | two sorted, stable reorderings of the same quotes are equal |
| Pricing.SortedStableIsReference | src/services/mockCourierAPI.ts:130 | any sorted, stable reordering of the quotes is the reference sort |
| Pricing.SortIdempotent | src/services/mockCourierAPI.ts:130 | sorting an already sorted list changes nothing |
| Pricing.SortQuotes | src/services/mockCourierAPI.ts:130 | the insertion-sort method returns a sorted, stable reordering of its input, equal to the reference sort |
| Pricing.SortByTotalMembers | src/services/mockCourierAPI.ts:130 | sorting keeps exactly the quotes it is given |
| Pricing.SortByTotalDistinct | src/services/mockCourierAPI.ts:130 | sorting quotes with distinct ids keeps the ids distinct |
| Pricing.CandidatesShape | src/services/mockCourierAPI.ts:40-120 | DHL, FedEx and UPS are always generated; USPS exactly on domestic routes from the US; Aramex exactly on international routes; nothing else |
| Pricing.CandidateOf | src/services/mockCourierAPI.ts:123-130 | every quote in the answer is a generated quote with its tax filled in |
| Pricing.TaxedCandidateIn | src/services/mockCourierAPI.ts:123-130 | every generated quote reaches the answer with its tax filled in |
| Pricing.QuotesForCarriers | src/services/mockCourierAPI.ts:40-120 | the answer always has DHL, FedEx and UPS; it has USPS if and only if the route is domestic from the US; it has Aramex if and only if the route is international; never both; it holds 4 quotes or 3 |
| Pricing.QuotesForTax | src/services/mockCourierAPI.ts:123-127 | every quote's tax is 10% of its base price and its total is 110%, each rounded to cents |
| Pricing.QuotesForDays | src/services/mockCourierAPI.ts:40-120 | delivery days are DHL 3/1, FedEx 4/2, UPS 7/5 (international/domestic), USPS 3 and Aramex 6, so DHL is strictly fastest |
| Pricing.QuotesForServiceTypes | src/services/mockCourierAPI.ts:40-120 | no quote is overnight, and exactly DHL and FedEx are express |
| Pricing.QuotesForDistinctIds | src/services/mockCourierAPI.ts:40-120 | no two quotes of one answer share an id |
| Pricing.QuotesForPositive | src/services/mockCourierAPI.ts:45-112 | for a non-negative weight and absent or positive dimensions, every base price is at least 15 and every total is positive |
| Pricing.DomesticUsTotals | src/services/mockCourierAPI.ts:40-104 | for a 1 kg domestic US parcel without dimensions the totals are DHL 88.00, FedEx 70.95, UPS 17.82 and USPS 35.75 |
| Pricing.DomesticUsExample | src/services/mockCourierAPI.ts:19-131 | a 1 kg domestic US parcel without dimensions is quoted in the order UPS, USPS, FedEx, DHL |
| Pricing.FetchCourierQuotes | src/services/mockCourierAPI.ts:19-131 | the engine method builds the carriers by pushes, adds tax and sorts; its answer equals the engine function and is a sorted, stable reordering of the taxed candidates |
| Results.FirstMinUnique | src/components/courier/CourierResults.tsx:21-29 | only one index can be the first minimum |
| Results.ReduceFrom | src/components/courier/CourierResults.tsx:21-29 | resuming the strict-`<` reduce from a first minimum of a prefix yields the first minimum of the whole list |
| Results.Reduce | src/components/courier/CourierResults.tsx:21-29 | the reduce over a non-empty list picks the first quote with the least key |
| Results.BadgesOf | src/components/courier/CourierResults.tsx:18-35 | both ids are null exactly for an empty list; otherwise they are the ids of the first cheapest and the first fastest quote |
| Results.ExactlyOneBadgeEach | src/components/courier/CourierResults.tsx:235-236 | with distinct ids, a card carries the cheapest (or fastest) badge if and only if it is the first cheapest (or fastest) quote |
| Results.SortedCheapestFirst | src/components/courier/CourierResults.tsx:21-24 | on a list sorted by total, the cheapest badge is on the first card |
| Results.SingleQuoteBadges | src/components/courier/CourierResults.tsx:21-34 | a single quote gets both badges |
| Results.TieGoesToFirst | src/components/courier/CourierResults.tsx:21-29 | of two quotes with equal total and days, the first gets both badges |
| Results.FastestIsUniqueMin | src/components/courier/CourierResults.tsx:26-29 | a quote strictly faster than all others gets the fastest badge |
| Results.EngineBadges | src/components/courier/CourierResults.tsx:18-35 | on the engine's answer, the cheapest badge is on the first card and the fastest badge is always DHL Express |
| Results.FindById | src/components/courier/CourierResults.tsx:183-185 | the look-up finds a quote exactly when one with the id exists, and then it is the first quote with that id |
| Results.FindByIdFirst | src/components/courier/CourierResults.tsx:183-185 | with distinct ids, looking up a quote's id finds that quote |
| Results.HeaderFiguresAreMinima | src/components/courier/CourierResults.tsx:160-219 | with distinct ids, the header's "From" amount is the least total and its "Fastest" figure is the fewest days |
| Results.ViewOf | src/components/courier/CourierResults.tsx:46-122 | the panel is the initial prompt exactly before any search, the skeleton exactly while loading after one, the empty state exactly when not loading with no quotes, and the list otherwise |
| Progress.ToLower | src/components/form/FormProgress.tsx:17 | lower-casing keeps the length and lowers exactly the ASCII capitals |
| Progress.FindLabel | src/components/form/FormProgress.tsx:16-18 | the result is -1 exactly when no label matches, and otherwise the first matching label |
| Progress.LowerOrigin | src/components/form/FormProgress.tsx:10 | "Origin" lower-cases to the origin step's value |
| Progress.LowerDestination | src/components/form/FormProgress.tsx:10 | "Destination" lower-cases to the destination step's value |
| Progress.LowerPackage | src/components/form/FormProgress.tsx:10 | "Package" lower-cases to the package step's value |
| Progress.ActiveStepIndex | src/components/form/FormProgress.tsx:16-18 | the active index is -1 or a label index, and a label it finds lower-cases to the current step |
| Progress.ActiveStepIsOrdinal | src/components/form/FormProgress.tsx:10-18 | the active index is 0, 1 or 2 for origin, destination and package, never -1, and its label lower-cases to the step |
| Progress.ActiveStepOrder | src/components/form/FormProgress.tsx:10-18 | the active indices follow the intake order and differ for different steps |
| Progress.ShownPanels | src/components/form/FormProgress.tsx:54-56 | exactly one panel is mounted: the current step's |
| QuoteSession.UpdatedFormData | src/context/QuoteProvider.tsx:20-32 | an update never removes an entry and adds exactly the submitted one; if every stored destination has a flag and a destination comes only after an origin, that stays so |
| QuoteSession.UpdateTouchesOneEntry | src/context/QuoteProvider.tsx:20-32 | an update writes the submitted step's entry and leaves the other entries unchanged; the flag is kept for an origin or package, and also for a destination when no origin is stored |
| QuoteSession.DestinationSetsFlag | src/context/QuoteProvider.tsx:27-29 | a destination stored behind an origin sets the flag to whether the countries differ |
| QuoteSession.FlagExamples | src/context/QuoteProvider.tsx:27-30 | Egypt to Saudi Arabia is flagged international; Egypt to Egypt is not |
| QuoteSession.StaleFlagAfterOriginEdit | src/context/QuoteProvider.tsx:27-30 | changing the origin to the destination's country after the destination keeps the flag true, a shipment the whole-shipment schema refuses |
| QuoteSession.InternationalPreview | src/components/form/DestinationStep.tsx:62-65 | the notice shows exactly when an origin is stored and the selected text does not read as the origin's country |
| QuoteSession.PreviewMatchesStoredFlag | src/components/form/DestinationStep.tsx:63-65 | the destination panel's notice agrees with the flag the submit then stores |
| QuoteSession.AddressFormDefaults | src/components/form/OriginStep.tsx:31-35 | an address panel starts with the stored address's fields, its country text reading back as the stored country; without one it starts empty with the US selected |
| QuoteSession.AddressDefaultsResubmit | src/components/form/OriginStep.tsx:31-35 | an address panel re-submitted untouched stores the same address; a fresh panel is refused |
| QuoteSession.PackageFormDefaults | src/components/form/PackageStep.tsx:45-48 | a package panel starts with the stored weight, its unit text reading back as the stored unit and a dimension left blank exactly when it was absent; without one it starts at 1 kg with no dimensions |
| QuoteSession.FreshPackageDefaults | src/components/form/PackageStep.tsx:45-48 | a fresh package panel submits 1 kg without dimensions |
| QuoteSession.PackageDefaultsResubmit | src/components/form/PackageStep.tsx:45-48 | a stored package whose dimensions print without an exponent is stored unchanged when re-submitted untouched |
| QuoteSession.TinyDimensionTyped | src/utils/validators.ts:40-52 | the text "0.0000001" is a valid positive dimension |
| QuoteSession.TinyDimensionRefusedOnResubmit | src/components/form/PackageStep.tsx:45-48 | a length of 0.0000001 is accepted when typed but refused when the stored package is re-submitted untouched |
| QuoteSession.Session.Valid | src/context/QuoteProvider.tsx:14-18 | a session satisfying the invariant is loading only after a search has started, and once a search has started the shipment has all four entries |
| QuoteSession.Session.View | src/components/courier/CourierResults.tsx:46-122 | under the invariant the skeleton is shown exactly while loading, and the list only when not loading with quotes |
| QuoteSession.Session.constructor | src/context/QuoteProvider.tsx:14-18 | the session starts with an empty shipment, no quotes, not loading, not searched, on the origin step |
| QuoteSession.Session.SubmitOrigin | src/components/form/OriginStep.tsx:50-53 | a valid origin is stored and the step moves to destination; an invalid one changes nothing; quotes and flags are untouched |
| QuoteSession.Session.StoreOrigin | src/components/form/OriginStep.tsx:50-53 | the origin handler stores the address, moves to the destination step and touches nothing else |
| QuoteSession.Session.SubmitDestination | src/components/form/DestinationStep.tsx:67-70 | a valid destination is stored, the flag is set to whether the countries differ, and the step moves to package; an invalid one changes nothing |
| QuoteSession.Session.StoreDestination | src/components/form/DestinationStep.tsx:67-70 | the destination handler stores the address, sets the flag to whether the countries differ, and moves to the package step |
| QuoteSession.Session.BackToOrigin | src/components/form/DestinationStep.tsx:206 | the step moves to origin without validation, and the stored data is kept |
| QuoteSession.Session.BackToDestination | src/components/form/PackageStep.tsx:239-240 | ignored while loading; otherwise the step moves to destination with the stored data kept |
| QuoteSession.Session.BeginSearch | src/components/form/PackageStep.tsx:61-71 | ignored while loading; an invalid package changes nothing; a valid one is stored, the search is marked started and loading, and the request is the stored shipment with the new package; old quotes stay and the step stays on package |
| QuoteSession.Session.FinishOk | src/components/form/PackageStep.tsx:68-86 | the quotes become the engine's answer for the request, loading stops, and the list is shown |
| QuoteSession.Session.FinishErr | src/components/form/PackageStep.tsx:81-86 | loading stops, the previous quotes and the searched flag are kept |
| QuoteSession.Session.RetryBegin | src/components/courier/CourierResults.tsx:38-40 | from the empty panel, loading starts and the skeleton is shown; nothing is fetched |
| QuoteSession.Session.RetryElapsed | src/components/courier/CourierResults.tsx:40-43 | after the delay the quotes are cleared and loading stops, so the empty panel shows again |

## Left out

- Simulated latency: the random 1.5–2.5 second delay before the engine
  answers is not modelled. The engine is a function of the shipment.
- `fetchCourierQuotesWithError`: the variant that fails one time in ten is
  not modelled. No panel calls it.
- Floating point: prices and rounding use exact reals. The binary-float
  quirks of `toFixed(2)` and `parseFloat` are not modelled, and neither
  is `Number(...)` on long digit strings. `Pricing.Round2` is exact
  rounding to cents with halves away from zero.
- String lengths count characters, not UTF-16 code units.
- Validators.ValidatePackage: for each field it reports the first failing
  stage of that field's schema chain. It does not report every message
  the schema library could collect for one field.
- QuoteSession.Session.Valid: the invariant does not repeat that stored
  addresses pass the schema again. Each submit's postcondition states that
  the stored address is the schema's output, and
  `Validators.AddressRoundTrip` gives the re-validation.
- `Pricing.FetchCourierQuotes` sorts a sequence, not an array in place.
  Aliasing of the array is therefore not modelled.
- The context's raw setters (`setCurrentStep`, `setQuotes`,
  `setIsLoading`, `setHasSearched`) are not exposed as operations. The
  model changes state only through the panels' handlers. The demo
  controls, which call the setters directly, are not part of this model.
- Each step handler requires the session to be on its own step, because
  only that step's panel is mounted (`Progress.ShownPanels`).
- The engine the package panel calls never rejects. `Session.FinishErr`
  models the handler's catch branch for a fetch that does.
- Browser side effects are not modelled: the alert, console output,
  scrolling to the results, and the debounced watches.
- Concurrency and React batching are not modelled. Each handler runs to
  completion, and the asynchronous steps are separate methods.
- Presentation is not modelled: styling, animation, the skeleton count,
  and the "courier"/"couriers" wording.
