/**
 * Everything the checker throws. Each value names one throw site of the
 * code; Message gives the exact string thrown there. The errors of each
 * JavaScript file form their own datatype.
 */
module Errors {
  import opened Text

  datatype Error =
    | TypeError
    | DateErr(date: DateError)
    | RateErr(rate: RateError)
    | RuleErr(rule: RuleError)
    | SuppErr(supp: SuppError)
    | OfferErr(offer: OfferError)
    | EngineErr(engine: EngineError)

  /** The exceptions of lib/utildate.js. */
  datatype DateError =
    | InvalidDate(fn: string, date: string)
    | BadDayCount(n: int)
    | OutOfRange

  /** The exceptions of lib/utilrate.js. */
  datatype RateError =
    | NoRates
    | NoStaticRate
    | StaticPlaced
    | StaticBases
    | StaticBase1
    | StaticNoType
    | StaticBadType
    | StaticUnitPair
    | StaticUnitDay
    | StaticUnitInt
    | StaticUnitLarge
    | MoreThanOneRates
    | RateNoAttrs
    | RateNoCode
    | BaseNoAttrs
    | BaseBadGuests
    | BaseBadAge
    | BaseBadAmount
    | BaseDuplicate
    | AddNoAttrs
    | AddBadAge
    | AddTwoAdults
    | AddBadAmount
    | AddBadMinAge
    | AddBadMaxAge
    | AddChildNoBracket
    | AddAdultBracket
    | AddMinAboveMax
    | AddMinLarge
    | AddMaxLarge
    | RateBadStart
    | RateBadEnd
    | RateStartAfterEnd
    | RateNoBases
    | RateManyBases
    | RateNoBase
    | RateManyAdds
    | RateOverlap
    | RateNoAdult
    | AmbiguousAge(age: nat)

  /** The exceptions of lib/utilrule.js. */
  datatype RuleError =
    | ManyRuleLists
    | RuleNoAttrs
    | RuleBadContext
    | RuleBadStart
    | RuleBadEnd
    | RuleStartAfterEnd
    | RuleOverlap
    | RuleManyStatus
    | RuleStatusNoAttrs
    | RuleBadRestriction
    | RuleBadStatus
    | RuleManyStays
    | RuleStayNoAttrs
    | RuleBadTime
    | RuleBadUnit
    | RuleTwoMin
    | RuleTwoMax
    | RuleBadType
    | RuleMinAboveMax
    | RuleManyDows
    | RuleManyArrival
    | RuleBadArrival
    | RuleManyDeparture
    | RuleBadDeparture

  /** The exceptions of lib/utilsupp.js. */
  datatype SuppError =
    | ManySuppLists
    | SuppNoAttrs
    | SuppNoCode
    | SuppBadInvType
    | StaticDates
    | StaticBadCtc
    | StaticBadAdd
    | StaticNoMandatory
    | StaticBadMandatory
    | StaticManyPre
    | StaticPreType
    | StaticPreCode
    | DynBadStart
    | DynBadEnd
    | DynStartAfterEnd
    | DynBadAmount
    | DynManyPre
    | DynPreType
    | DynPreCode
    | DupStatic(code: string)
    | NoStatic(code: string)
    | NoDynamic(code: string)
    | Overlay(code: string)

  /** The exceptions of lib/utildisc.js. */
  datatype OfferError =
    | OneOffers
    | NoOffer
    | FirstHasDiscount
    | FirstHasGuest
    | OneOfferRules
    | OneOfferRule
    | OccCount
    | OccNoAttrs
    | AdultRepeated
    | AdultMaxAge
    | AdultMinAge
    | AdultMinOcc
    | AdultMaxOcc
    | AdultOccOrder
    | ChildRepeated
    | ChildMinAge
    | ChildMaxAge
    | ChildAgeOrder
    | ChildMinOcc
    | ChildMaxOcc
    | ChildOccOrder
    | OccBadCode
    | NoAdultOcc
    | ChildWithoutAdultAge
    | AdultAgeWithoutChild
    | ChildMaxAboveAdult
    | ChildMinAboveAdult
    | NoDiscount
    | ManyDiscounts
    | DiscountNoAttrs
    | BadPercent
    | NoGuests
    | ManyGuests
    | NoGuest
    | ManyGuest
    | GuestBadCode
    | GuestBadMaxAge
    | GuestBadMinCount
    | GuestBadFirst
    | GuestBadLast
    | GuestLastAboveMin
    | ManyFamily
    | BadRequired
    | BadDiscounted
    | BadPattern
    | DiscountedAboveRequired
    | ManyFreeNights
    | UnknownDiscount
    | OfferManyStays
    | OfferStayNoAttrs
    | OfferBadTime
    | OfferBadUnit
    | OfferTwoMin
    | OfferTwoMax
    | OfferBadType
    | OfferMinAboveMax
    | OfferManyDows
    | OfferManyArrival
    | OfferBadArrival
    | OfferManyDeparture
    | OfferBadDeparture

  /** The exceptions of lib/engine.js: the job validation and find_plans. */
  datatype EngineError =
    | BadArrival
    | BadDeparture
    | TimeTravel
    | BadAdults
    | ChildrenNotArray
    | BadChildAge(index: nat)
    | NoOccupant
    | BadBookingDate
    | OccNotArray
    | OccEmptyCode
    | OccNotUnique
    | OccBadMin
    | OccBadStd
    | OccBadMax
    | OccBadMaxChildren
    | OccOrder
    | OccChildrenAboveMax
    | NoRatePlan
    | NotNew
    | NotEur
    | PlanCodeNotUnique
    | PlanCodeMissing

  /** The string the code throws. */
  function Message(e: Error): string {
    match e
    case TypeError => "TypeError: cannot read properties of undefined"
    case DateErr(d) => DateMessage(d)
    case RateErr(r) => RateMessage(r)
    case RuleErr(r) => RuleMessage(r)
    case SuppErr(s) => SuppMessage(s)
    case OfferErr(o) => OfferMessage(o)
    case EngineErr(g) => EngineMessage(g)
  }

  function DateMessage(e: DateError): string {
    match e
    case InvalidDate(fn, date) => fn + ": invalid date (" + date + ")"
    case BadDayCount(n) => "date_add: invalid number of days to add (" + IntToString(n) + ")"
    case OutOfRange => "date_add: date out of range"
  }

  function RateMessage(e: RateError): string {
    match e
    case NoRates => "invalid RatePlan: need exactly one Rates element"
    case NoStaticRate => "invalid RatePlan: need at least one Rate element"
    case StaticPlaced => "invalid RatePlan: the first Rate is supposed to be the \"static\" Rate, it must not have a InvTypeCode, Start or End attribute"
    case StaticBases => "invalid \"static\" Rate: need exactly one BaseByGuestAmts element"
    case StaticBase1 => "invalid \"static\" Rate: need exactly one BaseByGuestAmt element"
    case StaticNoType => "invalid \"static\" Rate: mandatory attribute BaseByGuestAmt -> Type is missing"
    case StaticBadType => "invalid \"static\" Rate: attribute BaseByGuestAmt -> Type must be \"7\" or \"25\""
    case StaticUnitPair => "invalid \"static\" Rate: attributes RateTimeUnit and UnitMultiplier: none or both must be given"
    case StaticUnitDay => "invalid \"static\" Rate: when given, RateTimeUnit must be \"Day\""
    case StaticUnitInt => "invalid \"static\" Rate: when given, UnitMultiplier must be a positive integer"
    case StaticUnitLarge => "invalid \"static\" Rate: the given UnitMultiplier is unreasonably large"
    case MoreThanOneRates => "invalid RatePlan: more than one Rates elements"
    case RateNoAttrs => "invalid RatePlan: (non-\"static\") Rate element with no attributes"
    case RateNoCode => "invalid RatePlan: (non-\"static\") Rate element is missing attribute InvTypeCode"
    case BaseNoAttrs => "invalid Rate: BaseByGuestAmt has no attributes"
    case BaseBadGuests => "invalid Rate: missing or invalid NumberOfGuests attribute in BaseByGuestAmt"
    case BaseBadAge => "invalid Rate: missing or invalid AgeQualifyingCode attribute in BaseByGuestAmt"
    case BaseBadAmount => "invalid Rate: missing or invalid AmountAfterTax attribute in BaseByGuestAmt"
    case BaseDuplicate => "invalid Rate: more than one BaseByGuestAmt have the same value for the NumberOfGuests attribute"
    case AddNoAttrs => "invalid Rate: AdditionalGuestAmount has no attributes"
    case AddBadAge => "invalid Rate: missing or invalid AgeQualifyingCode attribute in AdditionalGuestAmount"
    case AddTwoAdults => "invalid Rate: there can not be more than one AdditionalGuestAmount elements with AgeQualifyingCode = \"10\""
    case AddBadAmount => "invalid Rate: missing or invalid Amount attribute in AdditionalGuestAmount"
    case AddBadMinAge => "invalid Rate: missing or invalid MinAge attribute in AdditionalGuestAmount"
    case AddBadMaxAge => "invalid Rate: missing or invalid MaxAge attribute in AdditionalGuestAmount"
    case AddChildNoBracket => "invalid Rate: an AdditionalGuestAmount element has AgeQualifyingCode = \"8\" with no age brackets"
    case AddAdultBracket => "invalid Rate: an AdditionalGuestAmount element has AgeQualifyingCode = \"10\" with age brackets"
    case AddMinAboveMax => "invalid Rate: an AdditionalGuestAmount has MinAge >= MaxAge"
    case AddMinLarge => "invalid Rate: AdditionalGuestAmount: MinAge value too large"
    case AddMaxLarge => "invalid Rate: AdditionalGuestAmount: MaxAge value too large"
    case AmbiguousAge(age) => "invalid Rate: more than one AdditionalGuestAmount element with AgeQualifyingCode = \"8\" match an age of " + NatToString(age)
    case RateBadStart => "invalid Rate: invalid or missing Start attribute"
    case RateBadEnd => "invalid Rate: invalid or missing End attribute"
    case RateStartAfterEnd => "invalid Rate: Start > End"
    case RateNoBases => "invalid Rate: missing BaseByGuestAmts"
    case RateManyBases => "invalid Rate: more than one BaseByGuestAmts elements"
    case RateNoBase => "invalid Rate: no BaseByGuestAmt found"
    case RateManyAdds => "invalid Rate: more than one AdditionalGuestAmounts elements"
    case RateOverlap => "invalid Rate: overlap detected"
    case RateNoAdult => "invalid Rate: when AdditionalGuestAmount elements are present, one with AgeQualifyingCode = \"10\" must be present"
  }

  function RuleMessage(e: RuleError): string {
    match e
    case ManyRuleLists => "invalid RatePlan: more than one BookingRules elements"
    case RuleNoAttrs => "invalid BookingRule: element BookingRule has not attributes"
    case RuleBadContext => "invalid BookingRule: invalid or missing CodeContext attribute"
    case RuleBadStart => "invalid BookingRule: invalid or missing Start attribute"
    case RuleBadEnd => "invalid BookingRule: invalid or missing End attribute"
    case RuleStartAfterEnd => "invalid BookingRule: Start > End"
    case RuleOverlap => "invalid BookingRule: overlap detected"
    case RuleManyStatus => "invalid BookingRule: more than one RestrictionStatus elements"
    case RuleStatusNoAttrs => "invalid BookingRule: RestrictionStatus element has no attributes"
    case RuleBadRestriction => "invalid BookingRule: invalid or missing Restriction attribute"
    case RuleBadStatus => "invalid BookingRule: invalid or missing Status attribute"
    case RuleManyStays => "invalid BookingRule: more than one LengthsOfStay elements"
    case RuleStayNoAttrs => "invalid BookingRule: element LengthOfStay has not attributes"
    case RuleBadTime => "invalid BookingRule: invalid or missing Time attribute"
    case RuleBadUnit => "invalid BookingRule: invalid or missing TimeUnit attribute"
    case RuleTwoMin => "invalid BookingRule: more than on LengthOfStay of type \"SetMinLOS\""
    case RuleTwoMax => "invalid BookingRule: more than on LengthOfStay of type \"SetMaxLOS\""
    case RuleBadType => "invalid BookingRule: invalid or missing value for attribute MinMaxMessageType"
    case RuleMinAboveMax => "invalid BookingRule: LengthOfStay values: min value > max value"
    case RuleManyDows => "invalid BookingRule: more than one DOW_Restrictions elements"
    case RuleManyArrival => "invalid BookingRule: more than one ArrivalDaysOfWeek elements"
    case RuleBadArrival => "invalid BookingRule: invalid week day attribute value in ArrivalDaysOfWeek element"
    case RuleManyDeparture => "invalid BookingRule: more than one DepartureDaysOfWeek elements"
    case RuleBadDeparture => "invalid BookingRule: invalid week day attribute value in DepartureDaysOfWeek element"
  }

  function SuppMessage(e: SuppError): string {
    match e
    case ManySuppLists => "invalid RatePlan: more than one Supplements elements"
    case SuppNoAttrs => "invalid Supplement: Supplement element has no attributes"
    case SuppNoCode => "invalid Supplement: missing InvCode attribute"
    case SuppBadInvType => "invalid Supplement: missing or invalid InvType attribute"
    case StaticDates => "invalid static Supplement element: must not contain Start or End attributes"
    case StaticBadCtc => "invalid static Supplement element: invalid ChargeTypeCode"
    case StaticBadAdd => "invalid static Supplement element: invalid or missing AddToBasicRateIndicator attribute"
    case StaticNoMandatory => "invalid static Supplement element: missing MandatoryIndicator attribute"
    case StaticBadMandatory => "invalid static Supplement element: invalid MandatoryIndicator attribute"
    case StaticManyPre => "invalid static Supplement element: more than one PrerequisiteInventory"
    case StaticPreType => "invalid static Supplement element: PrerequisiteInventory is expected to have an attribute InvType=\"ALPINEBITSDOW\""
    case StaticPreCode => "invalid static Supplement element: PrerequisiteInventory is expected to have an attribute InvCode containing seven binary digits (0 or 1)"
    case DynBadStart => "invalid dynamic Supplement element: invalid or missing Start attribute"
    case DynBadEnd => "invalid dynamic Supplement element: invalid or missing End attribute"
    case DynStartAfterEnd => "invalid dynamic Supplement element: Start > End"
    case DynBadAmount => "invalid dynamic Supplement element: invalid or missing Amount attribute"
    case DynManyPre => "invalid dynamic Supplement element: more than one PrerequisiteInventory"
    case DynPreType => "invalid dynamic Supplement element: PrerequisiteInventory is expected to have an attribute InvType=\"ROOMTYPE\""
    case DynPreCode => "invalid dynamic Supplement element: PrerequisiteInventory is expected to have a non-empty attribute InvCode"
    case DupStatic(code) => "invalid RatePlan: more than one static Supplement element with the same InvCode (\"" + code + "\")"
    case NoStatic(code) => "invalid RatePlan: no static Supplement element with InvCode \"" + code + "\" found"
    case NoDynamic(code) => "invalid RatePlan: no dynamic Supplement elements with InvCode \"" + code + "\" found"
    case Overlay(code) => "invalid dynamic Supplement element: overlay detected for InvCode \"" + code + "\""
  }

  function OfferMessage(e: OfferError): string {
    match e
    case OneOffers => "invalid RatePlan: must contain exactly one Offers element"
    case NoOffer => "invalid RatePlan: at least one Offer element must be present"
    case FirstHasDiscount => "invalid RatePlan: the first Offer element must not contain a Discount element"
    case FirstHasGuest => "invalid RatePlan: the first Offer element must not contain a Guest element"
    case OneOfferRules => "invalid first Offer element: must contain exactly one OfferRules element"
    case OneOfferRule => "invalid first Offer element: must contain exactly one OfferRule element"
    case OccCount => "invalid first Offer element: OfferRule must have one or two Occupancy elements"
    case OccNoAttrs => "invalid first Offer element: Occupancy element has no attributes"
    case AdultRepeated => "invalid first Offer element: repeated Occupancy element with attribute AgeQualifyingCode=\"10\""
    case AdultMaxAge => "invalid first Offer element: Occupancy element with attribute AgeQualifyingCode=\"10\" must not have a MaxAge attribute"
    case AdultMinAge => "invalid first Offer element: Occupancy element with attribute AgeQualifyingCode=\"10\": if present, MinAge must be a positive integer <= 18"
    case AdultMinOcc => "invalid first Offer element: Occupancy element with attribute AgeQualifyingCode=\"10\": if present, MinOccupancy must be a positive integer <= 99"
    case AdultMaxOcc => "invalid first Offer element: Occupancy element with attribute AgeQualifyingCode=\"10\": if present, MaxOccupancy must be a positive integer <= 99"
    case AdultOccOrder => "invalid first Offer element: Occupancy element with attribute AgeQualifyingCode=\"10\": inconsistent values for MinOccupancy and MaxOccupancy"
    case ChildRepeated => "invalid first Offer element: repeated Occupancy element with attribute AgeQualifyingCode=\"8\""
    case ChildMinAge => "invalid first Offer element: Occupancy element with attribute AgeQualifyingCode=\"8\": if present, MinAge must be a positive integer <= 18"
    case ChildMaxAge => "invalid first Offer element: Occupancy element with attribute AgeQualifyingCode=\"8\": if present, MaxAge must be a positive integer <= 18"
    case ChildAgeOrder => "invalid first Offer element: Occupancy element with attribute AgeQualifyingCode=\"8\": inconsistent values for MinAge and MaxAge"
    case ChildMinOcc => "invalid first Offer element: Occupancy element with attribute AgeQualifyingCode=\"8\": if present, MinOccupancy must be a positive integer <= 99"
    case ChildMaxOcc => "invalid first Offer element: Occupancy element with attribute AgeQualifyingCode=\"8\": if present, MaxOccupancy must be a positive integer <= 99"
    case ChildOccOrder => "invalid first Offer element: Occupancy element with attribute AgeQualifyingCode=\"8\": inconsistent values for MinOccupancy and MaxOccupancy"
    case OccBadCode => "invalid first Offer element: attribute Occupancy -> AgeQualifyingCode must be \"8\" or \"10\""
    case NoAdultOcc => "invalid first Offer element: missing Occupancy element with attribute AgeQualifyingCode=\"10\""
    case ChildWithoutAdultAge => "invalid first Offer element: the Occupancy element with attribute AgeQualifyingCode=\"10\" has no MinAge attribute, but the one with AgeQualifyingCode=\"8\" is also present"
    case AdultAgeWithoutChild => "invalid first Offer element: the Occupancy element with attribute AgeQualifyingCode=\"10\" has a MinAge attribute, but the one with AgeQualifyingCode=\"8\" is not present"
    case ChildMaxAboveAdult => "invalid first Offer element: the Occupancy element with attribute AgeQualifyingCode=\"8\" has a MaxAge value that is > than the MinAge value for the one with AgeQualifyingCode=\"10\""
    case ChildMinAboveAdult => "invalid first Offer element: the Occupancy element with attribute AgeQualifyingCode=\"8\" has a MinAge value that is >= than the MinAge value for the one with AgeQualifyingCode=\"10\""
    case NoDiscount => "invalid Offer: no Discount element"
    case ManyDiscounts => "invalid Offer: more than one Discount element"
    case DiscountNoAttrs => "invalid Offer: Discount element has no attributes"
    case BadPercent => "invalid Offer: missing or invalid Percent attribute in Discount element"
    case NoGuests => "invalid Offer: missing Guests element"
    case ManyGuests => "invalid Offer: more than one Guests element"
    case NoGuest => "invalid Offer: missing Guest element"
    case ManyGuest => "invalid Offer: more than one Guest element"
    case GuestBadCode => "invalid Offer: invalid value for AgeQualifyingCode"
    case GuestBadMaxAge => "invalid Offer: missing or invalid MaxAge attribute"
    case GuestBadMinCount => "invalid Offer: missing or invalid MinCount attribute"
    case GuestBadFirst => "invalid Offer: invalid value for FirstQualifyingPosition"
    case GuestBadLast => "invalid Offer: missing or invalid LastQualifyingPosition"
    case GuestLastAboveMin => "invalid Offer: LastQualifyingPosition cannot exceeed MinCount"
    case ManyFamily => "invalid Offer: more than one discounts of type \"family\" detected"
    case BadRequired => "invalid Offer: invalid value for NightsRequired"
    case BadDiscounted => "invalid Offer: invalid value for NightsDiscounted"
    case BadPattern => "invalid Offer: inconsistent values for NightsRequired, NightsDiscounted and DiscountPattern"
    case DiscountedAboveRequired => "invalid Offer: NightsDiscounted cannot exceed NightsRequired"
    case ManyFreeNights => "invalid Offer: more than one discounts of type \"free nights\" detected"
    case UnknownDiscount => "invalid Offer: type of discount cannot be determined from the attributes of the Discount element"
    case OfferManyStays => "invalid first Offer element: OfferRule has more than one LengthsOfStay elements"
    case OfferStayNoAttrs => "invalid first Offer element: LengthOfStay element has no attributes"
    case OfferBadTime => "invalid first Offer element: LengthOfStay has invalid or missing Time attribute"
    case OfferBadUnit => "invalid first Offer element: LengthOfStay has  invalid or missing TimeUnit attribute"
    case OfferTwoMin => "invalid first Offer element: LengthOfStay has more than one LengthOfStay of type \"SetMinLOS\""
    case OfferTwoMax => "invalid first Offer element: LengthOfStay has more than one LengthOfStay of type \"SetMaxLOS\""
    case OfferBadType => "invalid first Offer element: LengthOfStay has invalid or missing value for attribute MinMaxMessageType"
    case OfferMinAboveMax => "invalid first Offer element: OfferRule has inconsistent LengthOfStay values: min value > max value"
    case OfferManyDows => "invalid first Offer element: OfferRule has more than one DOW_Restrictions elements"
    case OfferManyArrival => "invalid first Offer element: OfferRule has more than one ArrivalDaysOfWeek elements"
    case OfferBadArrival => "invalid first Offer element: ArrivalDaysOfWeek has invalid week day attribute value"
    case OfferManyDeparture => "invalid first Offer element: OfferRule has more than one DepartureDaysOfWeek elements"
    case OfferBadDeparture => "invalid first Offer element: DepartureDaysOfWeek has invalid week day attribute value"
  }

  function EngineMessage(e: EngineError): string {
    match e
    case BadArrival => "job parameter: arrival: invalid date"
    case BadDeparture => "job parameter: departure: invalid date"
    case TimeTravel => "job parameters: arrival, departure: time travel not invented yet"
    case BadAdults => "job parameter: num_adults: invalid value"
    case ChildrenNotArray => "job parameter: children_ages: array expected"
    case BadChildAge(i) => "job parameter: children_ages[" + NatToString(i) + "]: invalid value"
    case NoOccupant => "job parameters: num_adults, children_ages: need at least one occupant"
    case BadBookingDate => "job parameter: booking_date: invalid date"
    case OccNotArray => "job parameter: inventory occupancy: array with a multiple of five values expected"
    case OccEmptyCode => "job parameter: inventory occupancy: invalid code"
    case OccNotUnique => "job parameter: inventory occupancy: values for code are not unique"
    case OccBadMin => "job parameter: inventory occupancy: invalid min value"
    case OccBadStd => "job parameter: inventory occupancy: invalid std value"
    case OccBadMax => "job parameter: inventory occupancy: invalid max value"
    case OccBadMaxChildren => "job parameter: inventory occupancy: invalid max child occupancy value"
    case OccOrder => "job parameter: inventory occupancy: values must be min <= std <= max"
    case OccChildrenAboveMax => "job parameter: inventory occupancy: max child occupancy value cannot exceed max value"
    case NoRatePlan => "invalid rate plans message: cannot find a RatePlan element"
    case NotNew => "rtapp can only deal with RatePlan elements with RatePlanNotifType = \"New\""
    case NotEur => "invalid RatePlan: CurrencyCode must be \"EUR\""
    case PlanCodeNotUnique => "invalid RatePlan: RatePlanCode is not unique"
    case PlanCodeMissing => "invalid RatePlan: missing RatePlanCode"
  }
}
