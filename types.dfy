/**
  The shipment and quote records of the shipping calculator, and the
  literal unions they are built from (`CountryCode`, `WeightUnit`,
  `FormStep`, a quote's service type). Every record is a value: nothing in
  the core updates a record in place, the session replaces whole records.
 */
module Types {

  datatype Option<+T> = None | Some(value: T)

  datatype Result<+R, +E> = Ok(value: R) | Err(error: E)

  /** The three supported countries. */
  datatype CountryCode = SA | EG | US

  /** The two units a package weight may be given in. */
  datatype WeightUnit = Kg | Lb

  /** The service levels a quote may advertise. */
  datatype ServiceType = Standard | Express | Overnight

  /** The three intake steps, in the order the user meets them. */
  datatype FormStep = Origin | Destination | Package

  /** An address; street and state are optional. */
  datatype Address = Address(
    street: Option<string>,
    city: string,
    state: Option<string>,
    country: CountryCode,
    postalCode: string)

  /** A package: the weight and unit are required, each dimension is optional. */
  datatype PackageDimensions = PackageDimensions(
    weight: real,
    length: Option<real>,
    width: Option<real>,
    height: Option<real>,
    unit: WeightUnit)

  /** One priced offer from one courier. */
  datatype CourierQuote = CourierQuote(
    id: string,
    courierName: string,
    courierLogo: string,
    basePrice: real,
    tax: real,
    totalPrice: real,
    currency: string,
    estimatedDays: int,
    serviceType: ServiceType,
    features: seq<string>)

  /** A complete shipment, as the pricing engine receives it. */
  datatype ShippingFormData = ShippingFormData(
    origin: Address,
    destination: Address,
    package: PackageDimensions,
    isInternational: bool)

  /**
    The session's partial shipment: any subset of the four entries may be
    present, each one independently of the others.
   */
  datatype FormData = FormData(
    origin: Option<Address>,
    destination: Option<Address>,
    package: Option<PackageDimensions>,
    isInternational: Option<bool>)

  const EmptyFormData: FormData := FormData(None, None, None, None)

  /** The text of a country code, as the schema and the select input carry it. */
  function CountryText(c: CountryCode): string
  {
    match c
    case SA => "SA"
    case EG => "EG"
    case US => "US"
  }

  /** Reads a country code from text: exactly "SA", "EG" and "US" are codes. */
  function ParseCountry(s: string): (r: Option<CountryCode>)
    ensures r.Some? <==> (s == "SA" || s == "EG" || s == "US")
    ensures r.Some? ==> CountryText(r.value) == s
  {
    if s == "SA" then Some(SA)
    else if s == "EG" then Some(EG)
    else if s == "US" then Some(US)
    else None
  }

  /** The text of a weight unit. */
  function UnitText(u: WeightUnit): string
  {
    match u
    case Kg => "kg"
    case Lb => "lb"
  }

  /** Reads a weight unit from text: exactly "kg" and "lb" are units. */
  function ParseUnit(s: string): (r: Option<WeightUnit>)
    ensures r.Some? <==> (s == "kg" || s == "lb")
    ensures r.Some? ==> UnitText(r.value) == s
  {
    if s == "kg" then Some(Kg)
    else if s == "lb" then Some(Lb)
    else None
  }

  /** Printing a code and reading it back gives the same code. */
  lemma CountryTextRoundTrip(c: CountryCode)
    ensures ParseCountry(CountryText(c)) == Some(c)
  {
    match c
    case SA =>
    case EG =>
    case US =>
  }

  /** Printing a unit and reading it back gives the same unit. */
  lemma UnitTextRoundTrip(u: WeightUnit)
    ensures ParseUnit(UnitText(u)) == Some(u)
  {
    match u
    case Kg =>
    case Lb =>
  }
}
