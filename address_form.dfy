/** The address form: its six controls and their validators, the cascading
    resets of the dependent pick-lists, and what it emits. */
module AddressForm {
  import opened Wrappers
  import opened Text
  import opened AddressModel
  import opened LocationService

  /** The raw value of the form; every control is non-nullable. */
  datatype FormValue = FormValue(
    country: string,
    streetAddress: string,
    addressLine2: string,
    city: string,
    stateProvince: string,
    postalCode: string)

  /** The controls without a change subscription of their own. */
  datatype TextField = StreetAddress | AddressLine2 | City | PostalCode

  function WithField(v: FormValue, field: TextField, x: string): (r: FormValue)
    ensures r.country == v.country && r.stateProvince == v.stateProvince
  {
    match field
    case StreetAddress => v.(streetAddress := x)
    case AddressLine2 => v.(addressLine2 := x)
    case City => v.(city := x)
    case PostalCode => v.(postalCode := x)
  }

  // ---- Validation ----

  /** The validators the form uses; `PostalPattern` is `/^[A-Z0-9\s-]{3,10}$/i`. */
  datatype Validator = Required | MinLength(n: nat) | PostalPattern

  /** One character of the postal pattern's class. Without the `u` flag the
      `i` flag folds only ASCII letters into `A-Z`. */
  predicate IsPostalChar(c: char) {
    || ('A' <= c <= 'Z') || ('a' <= c <= 'z') || ('0' <= c <= '9')
    || IsJsWhitespace(c) || c == '-'
  }

  /** The anchored pattern matches the whole value: 3 to 10 characters of the
      class. Every character of the class is a single UTF-16 unit, so counting
      characters counts what the regular expression counts. */
  predicate MatchesPostalPattern(s: string) {
    3 <= |s| <= 10 && forall k :: 0 <= k < |s| ==> IsPostalChar(s[k])
  }

  /** Whether a validator accepts a value. `required` rejects only the empty
      string; `minLength` and `pattern` accept the empty string, and
      `minLength` counts UTF-16 units. */
  predicate Accepts(validator: Validator, x: string) {
    match validator
    case Required => x != ""
    case MinLength(n) => x == "" || Utf16Length(x) >= n
    case PostalPattern => x == "" || MatchesPostalPattern(x)
  }

  predicate ControlValid(validators: seq<Validator>, x: string) {
    forall k :: 0 <= k < |validators| ==> Accepts(validators[k], x)
  }

  const CountryValidators: seq<Validator> := [Required]
  const StreetAddressValidators: seq<Validator> := [Required, MinLength(5)]
  const AddressLine2Validators: seq<Validator> := []
  const CityValidators: seq<Validator> := [Required]
  const StateProvinceValidators: seq<Validator> := [Required]
  const PostalCodeValidators: seq<Validator> := [Required, PostalPattern]

  /** The form is valid when every control is. */
  predicate IsValid(v: FormValue) {
    && ControlValid(CountryValidators, v.country)
    && ControlValid(StreetAddressValidators, v.streetAddress)
    && ControlValid(AddressLine2Validators, v.addressLine2)
    && ControlValid(CityValidators, v.city)
    && ControlValid(StateProvinceValidators, v.stateProvince)
    && ControlValid(PostalCodeValidators, v.postalCode)
  }

  /** Validity spelled out: country, city and state non-empty, a street of at
      least 5 UTF-16 units, a postal code of the pattern; line 2 is free. */
  lemma ValidIff(v: FormValue)
    ensures IsValid(v) <==>
      && v.country != "" && v.city != "" && v.stateProvince != ""
      && Utf16Length(v.streetAddress) >= 5
      && MatchesPostalPattern(v.postalCode)
  {
    if Utf16Length(v.streetAddress) >= 5 {
      assert v.streetAddress != "";
    }
    if v.postalCode != "" && ControlValid(PostalCodeValidators, v.postalCode) {
      assert Accepts(PostalCodeValidators[1], v.postalCode);
    }
    if IsValid(v) {
      assert Accepts(StreetAddressValidators[0], v.streetAddress);
      assert Accepts(StreetAddressValidators[1], v.streetAddress);
      assert Accepts(PostalCodeValidators[0], v.postalCode);
    }
  }

  /** For a street of BMP characters the minimum length is a character count. */
  lemma StreetLengthInCharacters(street: string)
    requires forall k :: 0 <= k < |street| ==> street[k] as int <= 0xFFFF
    ensures Accepts(MinLength(5), street) <==> street == "" || |street| >= 5
  {
  }

  /** Validation looks at the untrimmed value: five spaces are a valid street,
      which the submitted value then trims to the empty string. */
  lemma BlankStreetPassesValidation()
    ensures var v := FormValue("UA", "     ", "", "Kyiv", "30", "01001");
      IsValid(v) && CurrentAddressValue(v).street == ""
  {
    var v := FormValue("UA", "     ", "", "Kyiv", "30", "01001");
    ValidIff(v);
    assert MatchesPostalPattern(v.postalCode);
    TrimBlank(v.streetAddress);
  }

  // ---- Values handed out ----

  /** `x.trim() || undefined`: a blank value counts as absent. */
  function TrimmedOrAbsent(x: string): (r: Option<string>)
    ensures r.None? <==> Trim(x) == ""
    ensures r.Some? ==> r.value == Trim(x)
  {
    var t := Trim(x);
    if t == "" then None else Some(t)
  }

  /** `getCurrentAddressValue`: the raw value with every text field trimmed;
      the country is copied. */
  function CurrentAddressValue(v: FormValue): (r: CreateAddressRequest) {
    CreateAddressRequest(
      v.country,
      Trim(v.streetAddress),
      TrimmedOrAbsent(v.addressLine2),
      Trim(v.city),
      Trim(v.stateProvince),
      Trim(v.postalCode))
  }

  /** Each text field of the value is the value's field with surrounding
      whitespace dropped: a piece of the raw field, framed by whitespace only,
      that neither starts nor ends with whitespace. Line 2 is absent iff it is
      blank. */
  lemma CurrentAddressValueTrims(v: FormValue)
    ensures var r := CurrentAddressValue(v);
      && r.country == v.country
      && FramedByWhitespace(r.street, v.streetAddress) && FramedByWhitespace(r.city, v.city)
      && FramedByWhitespace(r.stateProvince, v.stateProvince) && FramedByWhitespace(r.postalCode, v.postalCode)
      && (r.addressLine2.Some? ==> FramedByWhitespace(r.addressLine2.value, v.addressLine2))
      && NoOuterWhitespace(r.street) && NoOuterWhitespace(r.city)
      && NoOuterWhitespace(r.stateProvince) && NoOuterWhitespace(r.postalCode)
      && (r.addressLine2.None? <==> AllWhitespace(v.addressLine2))
      && (r.addressLine2.Some? ==> r.addressLine2.value != "" && NoOuterWhitespace(r.addressLine2.value))
  {
    TrimBlank(v.addressLine2);
  }

  /** Putting the submitted value back into the form and taking it again changes nothing. */
  lemma CurrentAddressValueIdempotent(v: FormValue)
    ensures var r := CurrentAddressValue(v);
      CurrentAddressValue(FormValue(r.country, r.street, r.addressLine2.GetOr(""), r.city, r.stateProvince, r.postalCode)) == r
  {
    var r := CurrentAddressValue(v);
    TrimIdempotent(v.streetAddress);
    TrimIdempotent(v.city);
    TrimIdempotent(v.stateProvince);
    TrimIdempotent(v.postalCode);
    LineTwoIdempotent(v.addressLine2);
    assert r.addressLine2 == TrimmedOrAbsent(v.addressLine2);
  }

  lemma LineTwoIdempotent(x: string)
    ensures TrimmedOrAbsent(TrimmedOrAbsent(x).GetOr("")) == TrimmedOrAbsent(x)
  {
    TrimIdempotent(x);
    assert Trim("") == "";
  }

  /** The debounced `addressChanged` emission for a form value: only when the
      country, city and state are non-empty (before trimming). The emitted
      record is built field by field like `getCurrentAddressValue`. */
  function AddressChangedEmission(v: FormValue): (r: Option<CreateAddressRequest>)
    ensures r.Some? <==> v.country != "" && v.city != "" && v.stateProvince != ""
  {
    if v.country != "" && v.city != "" && v.stateProvince != "" then
      Some(CreateAddressRequest(v.country, Trim(v.streetAddress), TrimmedOrAbsent(v.addressLine2),
                                Trim(v.city), Trim(v.stateProvince), Trim(v.postalCode)))
    else None
  }

  /** What `addressChanged` emits is the value the form would submit, and a
      valid form always emits it. */
  lemma AddressChangedIsCurrentValue(v: FormValue)
    ensures AddressChangedEmission(v).Some? ==> AddressChangedEmission(v).value == CurrentAddressValue(v)
    ensures IsValid(v) ==> AddressChangedEmission(v) == Some(CurrentAddressValue(v))
  {
    ValidIff(v);
  }

  /** The emit condition tests the untrimmed city: a blank city is emitted as
      the empty string. */
  lemma BlankCityIsEmitted()
    ensures var r := AddressChangedEmission(FormValue("UA", "", "", " ", "30", ""));
      r.Some? && r.value.city == ""
  {
    TrimBlank(" ");
  }

  // ---- Dependent pick-lists ----

  /** `availableStates`: nothing until a country is selected. */
  function AvailableStates(data: LocationData, compare: (string, string) -> int, selectedCountry: string): (r: seq<LocationState>)
    ensures selectedCountry == "" ==> r == []
    ensures r != [] ==> IsCountrySupported(selectedCountry)
    ensures selectedCountry != "" ==> r == GetStatesByCountry(data, compare, selectedCountry)
  {
    if selectedCountry != "" then GetStatesByCountry(data, compare, selectedCountry) else []
  }

  /** `availableCities`: nothing until both a country and a state are selected. */
  function AvailableCities(data: LocationData, compare: (string, string) -> int, selectedCountry: string, selectedState: string): (r: seq<LocationCity>)
    ensures selectedCountry == "" || selectedState == "" ==> r == []
    ensures r != [] ==> IsCountrySupported(selectedCountry)
    ensures r != [] ==> forall c :: c in r ==> exists rec :: rec in data.citiesOf(selectedCountry, selectedState) && c == ToCity(rec)
    ensures selectedCountry != "" && selectedState != "" ==> r == GetCitiesByState(data, compare, selectedCountry, selectedState)
  {
    if selectedCountry != "" && selectedState != "" then
      CitiesOfSupportedCountryMembers(data, compare, selectedCountry, selectedState);
      GetCitiesByState(data, compare, selectedCountry, selectedState)
    else []
  }

  /** After `ChangeCountry` the form's state is empty but the selected state is
      the previous one; whenever the new country has a state with that code and
      cities in it, the city list offers those cities although no state is chosen. */
  lemma StaleStateListsCities(data: LocationData, compare: (string, string) -> int, newCountry: string, oldState: string)
    requires IsCountrySupported(newCountry) && oldState != ""
    requires data.citiesOf(newCountry, oldState) != []
    ensures AvailableCities(data, compare, newCountry, "") == []
    ensures AvailableCities(data, compare, newCountry, oldState) != []
  {
    assert |GetCitiesByState(data, compare, newCountry, oldState)| == |data.citiesOf(newCountry, oldState)|;
  }

  // ---- The component ----

  class AddressFormComponent {
    const data: LocationData
    const compare: (string, string) -> int
    var countries: seq<LocationCountry>
    var value: FormValue
    var selectedCountry: string
    var selectedState: string
    var generatingQrCode: bool

    /** The component after `ngOnInit`: the supported countries loaded, the
        default country selected and in the form, every other field empty. */
    constructor (data: LocationData, compare: (string, string) -> int)
      ensures this.data == data && this.compare == compare
      ensures countries == GetSupportedCountries(data, compare)
      ensures selectedCountry == DefaultCountryCode && selectedState == ""
      ensures value == FormValue(DefaultCountryCode, "", "", "", "", "")
      ensures !generatingQrCode
    {
      this.data := data;
      this.compare := compare;
      countries := GetSupportedCountries(data, compare);
      selectedCountry := DefaultCountryCode;
      selectedState := "";
      value := FormValue(DefaultCountryCode, "", "", "", "", "");
      generatingQrCode := false;
    }

    function States(): (r: seq<LocationState>)
      reads this
    {
      AvailableStates(data, compare, selectedCountry)
    }

    function Cities(): (r: seq<LocationCity>)
      reads this
    {
      AvailableCities(data, compare, selectedCountry, selectedState)
    }

    /** The emission pending once the debounce interval has passed. */
    function PendingAddressChange(): (r: Option<CreateAddressRequest>)
      reads this
    {
      AddressChangedEmission(value)
    }

    /** A new country: it becomes the selected country, and state and city are
        cleared without notifying their own subscribers, so the selected state
        is kept. */
    method ChangeCountry(countryCode: string)
      modifies this
      ensures value == old(value).(country := countryCode, stateProvince := "", city := "")
      ensures selectedCountry == countryCode && selectedState == old(selectedState)
      ensures countries == old(countries) && generatingQrCode == old(generatingQrCode)
    {
      value := value.(country := countryCode);
      selectedCountry := countryCode;
      value := value.(stateProvince := "", city := "");
    }

    /** `ChangeCountry` as evidently intended: clearing the state control also
        clears the selected state, so the city list again follows the form and
        is empty until a state of the new country is chosen. */
    method ChangeCountryClearingState(countryCode: string)
      modifies this
      ensures value == old(value).(country := countryCode, stateProvince := "", city := "")
      ensures selectedCountry == countryCode && selectedState == ""
      ensures countries == old(countries) && generatingQrCode == old(generatingQrCode)
      ensures Cities() == AvailableCities(data, compare, value.country, value.stateProvince) == []
    {
      value := value.(country := countryCode);
      selectedCountry := countryCode;
      value := value.(stateProvince := "", city := "");
      selectedState := "";
    }

    /** A new state: it becomes the selected state, and only the city is cleared. */
    method ChangeStateProvince(stateCode: string)
      modifies this
      ensures value == old(value).(stateProvince := stateCode, city := "")
      ensures selectedState == stateCode && selectedCountry == old(selectedCountry)
      ensures countries == old(countries) && generatingQrCode == old(generatingQrCode)
    {
      value := value.(stateProvince := stateCode);
      selectedState := stateCode;
      value := value.(city := "");
    }

    /** Any other control: only that field changes. */
    method ChangeField(field: TextField, x: string)
      modifies this
      ensures value == WithField(old(value), field, x)
      ensures selectedCountry == old(selectedCountry) && selectedState == old(selectedState)
      ensures countries == old(countries) && generatingQrCode == old(generatingQrCode)
    {
      value := WithField(value, field, x);
    }

    /** `onGenerateQrCode`: a valid form emits its trimmed value and raises the
        progress flag; an invalid one emits nothing and changes nothing here. */
    method OnGenerateQrCode() returns (emitted: Option<CreateAddressRequest>)
      modifies this
      ensures emitted.Some? <==> IsValid(old(value))
      ensures emitted.Some? ==> emitted.value == CurrentAddressValue(old(value)) && generatingQrCode
      ensures emitted.None? ==> generatingQrCode == old(generatingQrCode)
      ensures value == old(value) && selectedCountry == old(selectedCountry) && selectedState == old(selectedState)
      ensures countries == old(countries)
    {
      var v := value;
      if IsValid(v) {
        emitted := Some(CurrentAddressValue(v));
        generatingQrCode := true;
      } else {
        emitted := None;
      }
    }

    /** The timer that follows an emission clears the progress flag. */
    method OnQrCodeTimerElapsed()
      modifies this
      ensures !generatingQrCode
      ensures value == old(value) && selectedCountry == old(selectedCountry) && selectedState == old(selectedState)
      ensures countries == old(countries)
    {
      generatingQrCode := false;
    }
  }
}
