/**
  The quote session: the shared state the provider holds (the partial
  shipment, the quotes, the loading and searched flags, the current step)
  and the handlers of the three step panels and of the results panel that
  change it. The asynchronous parts become pairs of methods: one that
  starts the work and one that finishes it.
 */
module QuoteSession {
  import opened Types
  import opened Validators
  import Pricing
  import Results

  /** The entry one step submits. */
  datatype StepData =
    | OriginData(origin: Address)
    | DestinationData(destination: Address)
    | PackageData(package: PackageDimensions)

  /**
    updateFormData: store the entry of the submitted step; a destination
    recomputes the international flag against the stored origin, any other
    step carries the previous flag over unchanged.
   */
  function UpdatedFormData(prev: FormData, data: StepData): (r: FormData)
    ensures r.origin.Some? <==> prev.origin.Some? || data.OriginData?
    ensures r.destination.Some? <==> prev.destination.Some? || data.DestinationData?
    ensures r.package.Some? <==> prev.package.Some? || data.PackageData?
    ensures (prev.destination.Some? ==> prev.isInternational.Some?) && (data.DestinationData? ==> prev.origin.Some?)
            ==> (r.destination.Some? ==> r.isInternational.Some?)
  {
    match data
    case OriginData(a) => prev.(origin := Some(a))
    case DestinationData(a) =>
      prev.(destination := Some(a),
            isInternational := if prev.origin.Some? then Some(prev.origin.value.country != a.country)
                               else prev.isInternational)
    case PackageData(p) => prev.(package := Some(p))
  }

  /** The entry a submission writes, and the entry it leaves alone. */
  lemma UpdateTouchesOneEntry(prev: FormData, data: StepData)
    ensures data.OriginData? ==> UpdatedFormData(prev, data).origin == Some(data.origin)
    ensures data.DestinationData? ==> UpdatedFormData(prev, data).destination == Some(data.destination)
    ensures data.PackageData? ==> UpdatedFormData(prev, data).package == Some(data.package)
    ensures !data.OriginData? ==> UpdatedFormData(prev, data).origin == prev.origin
    ensures !data.DestinationData? ==> UpdatedFormData(prev, data).destination == prev.destination
    ensures !data.PackageData? ==> UpdatedFormData(prev, data).package == prev.package
    ensures !data.DestinationData? ==> UpdatedFormData(prev, data).isInternational == prev.isInternational
    ensures data.DestinationData? && prev.origin.None? ==> UpdatedFormData(prev, data).isInternational == prev.isInternational
  {
  }

  /**
    After a destination is stored behind a stored origin, the flag says
    exactly whether the two countries differ.
   */
  lemma DestinationSetsFlag(prev: FormData, a: Address)
    requires prev.origin.Some?
    ensures UpdatedFormData(prev, DestinationData(a)).isInternational == Some(prev.origin.value.country != a.country)
  {
  }

  /** Egypt to Saudi Arabia is international; Cairo to Alexandria is not. */
  lemma FlagExamples(cairo: Address, riyadh: Address, alexandria: Address)
    requires cairo.country == EG && riyadh.country == SA && alexandria.country == EG
    ensures UpdatedFormData(UpdatedFormData(EmptyFormData, OriginData(cairo)), DestinationData(riyadh)).isInternational == Some(true)
    ensures UpdatedFormData(UpdatedFormData(EmptyFormData, OriginData(cairo)), DestinationData(alexandria)).isInternational == Some(false)
  {
  }

  /**
    Editing the origin after the destination leaves the flag as it was: an
    Egypt to Saudi Arabia shipment whose origin is changed to Saudi Arabia
    is still flagged international, a combination the whole-shipment
    schema refuses.
   */
  lemma StaleFlagAfterOriginEdit(o1: Address, o2: Address, d: Address, pkg: PackageInput)
    requires o1.country != d.country && o2.country == d.country
    ensures var f := UpdatedFormData(UpdatedFormData(UpdatedFormData(EmptyFormData, OriginData(o1)), DestinationData(d)), OriginData(o2));
            f.isInternational == Some(true)
            && f.origin.value.country == f.destination.value.country
            && ValidateShippingForm(ShippingFormInput(AddressInputOf(f.origin.value), AddressInputOf(f.destination.value), pkg, f.isInternational.value)).Err?
  {
  }

  /**
    The notice on the destination panel: shown when an origin is stored
    and its country differs from the country selected so far.
   */
  function InternationalPreview(storedOrigin: Option<Address>, selected: string): (r: bool)
    ensures r <==> storedOrigin.Some? && ParseCountry(selected) != Some(storedOrigin.value.country)
  {
    assert storedOrigin.Some? ==> ParseCountry(CountryText(storedOrigin.value.country)) == Some(storedOrigin.value.country) by {
      if storedOrigin.Some? {
        CountryTextRoundTrip(storedOrigin.value.country);
      }
    }
    storedOrigin.Some? && CountryText(storedOrigin.value.country) != selected
  }

  /** Submitting the previewed country stores the flag the notice showed. */
  lemma PreviewMatchesStoredFlag(prev: FormData, a: Address)
    requires prev.origin.Some?
    ensures UpdatedFormData(prev, DestinationData(a)).isInternational
            == Some(InternationalPreview(prev.origin, CountryText(a.country)))
  {
    if prev.origin.value.country != a.country {
      CountryTextRoundTrip(prev.origin.value.country);
      CountryTextRoundTrip(a.country);
    }
  }

  /** An address panel starts from the stored address, or from an empty US address. */
  function AddressFormDefaults(stored: Option<Address>): (r: AddressInput)
    ensures stored.Some? ==> ParseCountry(r.country) == Some(stored.value.country)
                             && r.street == stored.value.street && r.city == stored.value.city
                             && r.state == stored.value.state && r.postalCode == stored.value.postalCode
    ensures stored.None? ==> ParseCountry(r.country) == Some(US) && r.city == "" && r.postalCode == ""
                             && r.street.None? && r.state.None?
  {
    assert stored.Some? ==> ParseCountry(CountryText(stored.value.country)) == Some(stored.value.country) by {
      if stored.Some? {
        CountryTextRoundTrip(stored.value.country);
      }
    }
    if stored.Some? then AddressInputOf(stored.value) else AddressInput(None, "", None, "US", "")
  }

  /** Re-submitting an address panel untouched stores the same address; a fresh panel is refused. */
  lemma AddressDefaultsResubmit(stored: Option<Address>)
    requires stored.Some? ==> IsValidatedAddress(stored.value)
    ensures stored.Some? ==> ValidateAddress(AddressFormDefaults(stored)) == Ok(stored.value)
    ensures stored.None? ==> ValidateAddress(AddressFormDefaults(stored)).Err?
  {
  }

  /** An optional stored number as the form holds it. */
  function NumberField(x: Option<real>): NumericInput
  {
    if x.Some? then Num(x.value) else Undefined
  }

  /** The package panel starts from the stored package, or from 1 kg. */
  function PackageFormDefaults(stored: Option<PackageDimensions>): (r: PackageInput)
    ensures stored.Some? ==> r.weight == Num(stored.value.weight) && ParseUnit(r.unit) == Some(stored.value.unit)
    ensures stored.Some? ==> (r.length == Undefined <==> stored.value.length.None?)
                             && (r.width == Undefined <==> stored.value.width.None?)
                             && (r.height == Undefined <==> stored.value.height.None?)
    ensures stored.None? ==> r.weight == Num(1.0) && ParseUnit(r.unit) == Some(Kg)
                             && r.length == Undefined && r.width == Undefined && r.height == Undefined
  {
    assert stored.Some? ==> ParseUnit(UnitText(stored.value.unit)) == Some(stored.value.unit) by {
      if stored.Some? {
        UnitTextRoundTrip(stored.value.unit);
      }
    }
    if stored.Some? then
      var p := stored.value;
      PackageInput(Num(p.weight), NumberField(p.length), NumberField(p.width), NumberField(p.height), UnitText(p.unit))
    else
      PackageInput(Num(1.0), Undefined, Undefined, Undefined, "kg")
  }

  /** A fresh package panel submits a 1 kg package without dimensions. */
  lemma FreshPackageDefaults()
    ensures ValidatePackage(PackageFormDefaults(None)) == Ok(PackageDimensions(1.0, None, None, None, Kg))
  {
  }

  /** A dimension String() writes without an exponent. */
  predicate PlainDimension(x: Option<real>)
  {
    x.None? || PrintsAsDecimal(x.value)
  }

  /**
    Re-submitting the package panel untouched stores the same package,
    provided each stored dimension prints without an exponent.
   */
  lemma PackageDefaultsResubmit(p: PackageDimensions)
    requires InPackageBounds(p)
    requires PlainDimension(p.length) && PlainDimension(p.width) && PlainDimension(p.height)
    ensures ValidatePackage(PackageFormDefaults(Some(p))) == Ok(p)
  {
    UnitTextRoundTrip(p.unit);
  }

  /** Typed as text, a length of 0.0000001 passes the pattern and is positive. */
  lemma TinyDimensionTyped()
    ensures NumberOf(Text("0.0000001")) == Some(0.0000001)
  {
    var s := "0.0000001";
    TinyDotIndex();
    TinyFraction();
    assert s[..1] == "0" && s[1 + 1..] == "0000001";
    assert WholeNumber("0") == 0 by { assert "0"[..0] == ""; }
  }

  lemma TinyDotIndex()
    ensures DotIndex("0.0000001") == 1
  {
    var s := "0.0000001";
    assert s[0] != '.' && s[1] == '.';
  }

  /** The digits after the point of 0.0000001. */
  lemma TinyFraction()
    ensures FractionValue("0000001") == 0.0000001
  {
    SmallFraction();
    LeadingZeroFraction("0001");
    assert "0" + "0001" == "00001";
    LeadingZeroFraction("00001");
    assert "0" + "00001" == "000001";
    LeadingZeroFraction("000001");
    assert "0" + "000001" == "0000001";
  }

  lemma SmallFraction()
    ensures FractionValue("0001") == 0.0001
  {
    assert FractionValue("1") == 0.1 by { assert "1"[1..] == ""; }
    LeadingZeroFraction("1");
    assert "0" + "1" == "01";
    LeadingZeroFraction("01");
    assert "0" + "01" == "001";
    LeadingZeroFraction("001");
    assert "0" + "001" == "0001";
  }

  /** A leading zero after the point divides the rest by ten. */
  lemma LeadingZeroFraction(s: string)
    requires forall i :: 0 <= i < |s| ==> IsDigit(s[i])
    ensures forall i :: 0 <= i < |"0" + s| ==> IsDigit(("0" + s)[i])
    ensures FractionValue("0" + s) == FractionValue(s) / 10.0
  {
    assert ("0" + s)[1..] == s;
  }

  /**
    A dimension below 0.000001 passes the schema as typed text but is
    written back with an exponent, so the same package re-submitted
    untouched is refused.
   */
  lemma TinyDimensionRefusedOnResubmit()
    ensures ValidatePackage(PackageInput(Num(1.0), Text("0.0000001"), Undefined, Undefined, "kg"))
            == Ok(PackageDimensions(1.0, Some(0.0000001), None, None, Kg))
    ensures ValidatePackage(PackageFormDefaults(Some(PackageDimensions(1.0, Some(0.0000001), None, None, Kg)))).Err?
  {
    TinyTypedAccepted();
    TinyStoredRefused();
  }

  lemma TinyTypedAccepted()
    ensures ValidatePackage(PackageInput(Num(1.0), Text("0.0000001"), Undefined, Undefined, "kg"))
            == Ok(PackageDimensions(1.0, Some(0.0000001), None, None, Kg))
  {
    TinyDimensionTyped();
    assert DimensionResult(Length, Text("0.0000001")) == Ok(Some(0.0000001));
    assert WeightResult(Num(1.0)) == Ok(1.0);
  }

  lemma TinyStoredRefused()
    ensures ValidatePackage(PackageFormDefaults(Some(PackageDimensions(1.0, Some(0.0000001), None, None, Kg)))).Err?
  {
    var stored := PackageFormDefaults(Some(PackageDimensions(1.0, Some(0.0000001), None, None, Kg)));
    assert stored.length == Num(0.0000001);
    assert !DimensionAccepted(stored.length);
  }

  /** What keeps a fetch or a timer open: nothing, the quote request, or the retry delay. */
  datatype Pending = Idle | Fetching(request: ShippingFormData) | RetryTimer

  /** How a press of "Get Quotes" ended. */
  datatype SearchOutcome =
    | Ignored
    | Refused(errors: seq<PackageError>)
    | Started(request: ShippingFormData)

  class Session {
    var formData: FormData
    var quotes: seq<CourierQuote>
    var isLoading: bool
    var hasSearched: bool
    var currentStep: FormStep
    var pending: Pending

    /**
      The session invariant: a step is reached only with the entries of the
      steps before it; a search has a
      package within the schema's bounds; loading means exactly that a fetch or the retry delay is
      open; an open fetch is for the stored shipment.
     */
    ghost predicate Valid()
      reads this
      ensures Valid() ==> (isLoading ==> hasSearched)
      ensures Valid() && hasSearched ==> formData.origin.Some? && formData.destination.Some?
                                         && formData.package.Some? && formData.isInternational.Some?
    {
      && (currentStep != Origin ==> formData.origin.Some?)
      && (currentStep == Package ==> formData.destination.Some?)
      && (formData.destination.Some? ==> formData.origin.Some? && formData.isInternational.Some?)
      && (formData.package.Some? ==> formData.destination.Some?)
      && (formData.package.Some? ==> InPackageBounds(formData.package.value))
      && (hasSearched ==> formData.package.Some?)
      && (!hasSearched ==> quotes == [] && pending == Idle)
      && (isLoading <==> pending != Idle)
      && (pending.Fetching? ==>
            && currentStep == Package
            && formData == FormData(Some(pending.request.origin), Some(pending.request.destination),
                                    Some(pending.request.package), Some(pending.request.isInternational)))
    }

    /** The results panel the session shows. */
    function View(): (v: Results.ResultsView)
      reads this
      ensures Valid() ==> (v == Results.Searching <==> isLoading)
      ensures v == Results.QuoteList ==> !isLoading && quotes != []
    {
      Results.ViewOf(hasSearched, isLoading, quotes)
    }

    /** The provider's initial state. */
    constructor ()
      ensures Valid()
      ensures formData == EmptyFormData && quotes == [] && !isLoading && !hasSearched
      ensures currentStep == Origin && pending == Idle
    {
      formData := EmptyFormData;
      quotes := [];
      isLoading := false;
      hasSearched := false;
      currentStep := Origin;
      pending := Idle;
    }

    /** The origin panel's submit: store the validated address and move on. */
    method SubmitOrigin(input: AddressInput) returns (r: Result<Address, seq<AddressError>>)
      requires Valid() && currentStep == Origin
      modifies this
      ensures Valid()
      ensures r == ValidateAddress(input)
      ensures r.Ok? ==> formData == UpdatedFormData(old(formData), OriginData(r.value)) && currentStep == Destination
      ensures r.Err? ==> formData == old(formData) && currentStep == Origin
      ensures quotes == old(quotes) && isLoading == old(isLoading) && hasSearched == old(hasSearched)
      ensures pending == old(pending)
    {
      r := ValidateAddress(input);
      if r.Ok? {
        StoreOrigin(r.value);
      }
    }

    /** The origin handler proper, run on an address the schema accepted. */
    method StoreOrigin(a: Address)
      requires Valid() && currentStep == Origin
      modifies this
      ensures Valid()
      ensures formData == UpdatedFormData(old(formData), OriginData(a)) && currentStep == Destination
      ensures quotes == old(quotes) && isLoading == old(isLoading) && hasSearched == old(hasSearched)
      ensures pending == old(pending)
    {
      formData := UpdatedFormData(formData, OriginData(a));
      currentStep := Destination;
    }

    /** The destination panel's submit: store the validated address, set the flag, move on. */
    method SubmitDestination(input: AddressInput) returns (r: Result<Address, seq<AddressError>>)
      requires Valid() && currentStep == Destination
      modifies this
      ensures Valid()
      ensures r == ValidateAddress(input)
      ensures r.Ok? ==> formData == UpdatedFormData(old(formData), DestinationData(r.value)) && currentStep == Package
      ensures r.Ok? ==> formData.isInternational == Some(old(formData).origin.value.country != r.value.country)
      ensures r.Err? ==> formData == old(formData) && currentStep == Destination
      ensures quotes == old(quotes) && isLoading == old(isLoading) && hasSearched == old(hasSearched)
      ensures pending == old(pending)
    {
      r := ValidateAddress(input);
      if r.Ok? {
        StoreDestination(r.value);
      }
    }

    /** The destination handler proper, run on an address the schema accepted. */
    method StoreDestination(a: Address)
      requires Valid() && currentStep == Destination
      modifies this
      ensures Valid()
      ensures formData == UpdatedFormData(old(formData), DestinationData(a)) && currentStep == Package
      ensures formData.isInternational == Some(old(formData).origin.value.country != a.country)
      ensures quotes == old(quotes) && isLoading == old(isLoading) && hasSearched == old(hasSearched)
      ensures pending == old(pending)
    {
      formData := UpdatedFormData(formData, DestinationData(a));
      currentStep := Package;
    }

    /** The destination panel's Back button. */
    method BackToOrigin()
      requires Valid() && currentStep == Destination
      modifies this
      ensures Valid()
      ensures currentStep == Origin
      ensures formData == old(formData) && quotes == old(quotes) && isLoading == old(isLoading)
      ensures hasSearched == old(hasSearched) && pending == old(pending)
    {
      currentStep := Origin;
    }

    /** The package panel's Back button, disabled while loading. */
    method BackToDestination() returns (accepted: bool)
      requires Valid() && currentStep == Package
      modifies this
      ensures Valid()
      ensures accepted == !old(isLoading)
      ensures currentStep == if accepted then Destination else Package
      ensures formData == old(formData) && quotes == old(quotes) && isLoading == old(isLoading)
      ensures hasSearched == old(hasSearched) && pending == old(pending)
    {
      accepted := !isLoading;
      if accepted {
        currentStep := Destination;
      }
    }

    /**
      The package panel's "Get Quotes", disabled while loading: validate the
      package, store it, mark the search as started and loading, and ask the
      engine for the stored shipment with the new package.
     */
    method BeginSearch(input: PackageInput) returns (outcome: SearchOutcome)
      requires Valid() && currentStep == Package
      modifies this
      ensures Valid()
      ensures old(isLoading) <==> outcome.Ignored?
      ensures !old(isLoading) ==>
                if ValidatePackage(input).Err? then outcome == Refused(ValidatePackage(input).error)
                else outcome.Started?
      ensures outcome.Started? ==>
                && outcome.request == ShippingFormData(old(formData).origin.value, old(formData).destination.value,
                                                       ValidatePackage(input).value, old(formData).isInternational.value)
                && formData == UpdatedFormData(old(formData), PackageData(outcome.request.package))
                && hasSearched && isLoading && pending == Fetching(outcome.request)
                && quotes == old(quotes)
      ensures !outcome.Started? ==>
                formData == old(formData) && hasSearched == old(hasSearched) && isLoading == old(isLoading)
                && pending == old(pending) && quotes == old(quotes)
      ensures outcome.Started? ==> View() == Results.Searching
      ensures currentStep == Package
    {
      if isLoading {
        return Ignored;
      }
      var r := ValidatePackage(input);
      if r.Err? {
        return Refused(r.error);
      }
      ValidatedPackageInBounds(input);
      var request := ShippingFormData(formData.origin.value, formData.destination.value, r.value,
                                      formData.isInternational.value);
      formData := UpdatedFormData(formData, PackageData(r.value));
      hasSearched := true;
      isLoading := true;
      pending := Fetching(request);
      return Started(request);
    }

    /** The fetch resolves: show the engine's quotes and stop loading. */
    method FinishOk()
      requires Valid() && pending.Fetching?
      modifies this
      ensures Valid()
      ensures quotes == Pricing.QuotesFor(old(pending).request)
      ensures !isLoading && pending == Idle
      ensures View() == Results.QuoteList
      ensures formData == old(formData) && hasSearched == old(hasSearched) && currentStep == old(currentStep)
    {
      var fetched := Pricing.FetchCourierQuotes(pending.request);
      quotes := fetched;
      isLoading := false;
      pending := Idle;
    }

    /**
      The fetch rejects: the handler alerts and stops loading, keeping the
      quotes of the previous search. The engine the panel calls never
      rejects; the branch is there for one that does.
     */
    method FinishErr()
      requires Valid() && pending.Fetching?
      modifies this
      ensures Valid()
      ensures quotes == old(quotes)
      ensures !isLoading && pending == Idle
      ensures View() == if quotes == [] then Results.EmptyResults else Results.QuoteList
      ensures formData == old(formData) && hasSearched == old(hasSearched) && currentStep == old(currentStep)
    {
      isLoading := false;
      pending := Idle;
    }

    /** The empty-results panel's retry: start loading and arm the one-second delay. */
    method RetryBegin()
      requires Valid() && View() == Results.EmptyResults
      modifies this
      ensures Valid()
      ensures isLoading && pending == RetryTimer
      ensures View() == Results.Searching
      ensures formData == old(formData) && quotes == old(quotes) && hasSearched == old(hasSearched)
      ensures currentStep == old(currentStep)
    {
      isLoading := true;
      pending := RetryTimer;
    }

    /** The retry delay elapses: clear the quotes and stop loading, which shows the empty panel again. */
    method RetryElapsed()
      requires Valid() && pending == RetryTimer
      modifies this
      ensures Valid()
      ensures quotes == [] && !isLoading && pending == Idle
      ensures View() == Results.EmptyResults
      ensures formData == old(formData) && hasSearched == old(hasSearched) && currentStep == old(currentStep)
    {
      quotes := [];
      isLoading := false;
      pending := Idle;
    }
  }
}
