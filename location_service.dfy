/** Country, state and city lookups over the location data set, restricted to
    the supported countries. The data set and the collation of names are
    inputs. */
module LocationService {
  import opened Wrappers
  import opened Seqs
  import opened Sorting

  /** The records of the location data set. */
  datatype CountryRecord = CountryRecord(isoCode: string, name: string, flag: string)
  datatype StateRecord = StateRecord(isoCode: string, name: string, countryCode: string)
  datatype CityRecord = CityRecord(name: string, stateCode: string, countryCode: string,
                                   latitude: Option<string>, longitude: Option<string>)

  /** The data set: every country, the states of a country, the cities of a state. */
  datatype LocationData = LocationData(
    countries: seq<CountryRecord>,
    statesOf: string -> seq<StateRecord>,
    citiesOf: (string, string) -> seq<CityRecord>)

  /** What the service hands out. */
  datatype LocationCountry = LocationCountry(code: string, name: string, flag: string)
  datatype LocationState = LocationState(code: string, name: string, countryCode: string)
  datatype LocationCity = LocationCity(name: string, stateCode: string, countryCode: string,
                                       latitude: Option<string>, longitude: Option<string>)

  const SupportedCountryCodes: seq<string> := [
    "AD", "AL", "AM", "AT", "AZ", "BA", "BE", "BG",
    "CH", "CY", "CZ", "DE", "DK", "EE", "ES", "FI", "FR", "GB", "GE", "GR", "HR",
    "NL", "NO", "PL", "PT",
    "SE",
    "TR", "UA",
    "US"
  ]

  const DefaultCountryCode: string := "UA"

  /** `isCountrySupported`: exact, case-sensitive membership in the list. */
  predicate IsCountrySupported(countryCode: string) {
    countryCode in SupportedCountryCodes
  }

  lemma DefaultCountryIsSupported()
    ensures IsCountrySupported(DefaultCountryCode)
  {
  }

  /** Every supported code is two upper-case letters, so a lower-case code is never supported. */
  lemma SupportedCodesAreUpperCase(countryCode: string)
    requires IsCountrySupported(countryCode)
    ensures |countryCode| == 2 && forall k :: 0 <= k < 2 ==> 'A' <= countryCode[k] <= 'Z'
  {
  }

  /** `a.name.localeCompare(b.name) <= 0`: `a` may stay before `b`. */
  function ByName<T>(compare: (string, string) -> int, name: T -> string): (le: (T, T) -> bool) {
    (a: T, b: T) => compare(name(a), name(b)) <= 0
  }

  /** The collation orders all strings consistently. */
  ghost predicate ConsistentCollation(compare: (string, string) -> int) {
    TotalPreorder((x: string, y: string) => compare(x, y) <= 0)
  }

  lemma ByNameIsTotalPreorder<T(!new)>(compare: (string, string) -> int, name: T -> string)
    requires ConsistentCollation(compare)
    ensures TotalPreorder(ByName(compare, name))
  {
    var le := (x: string, y: string) => compare(x, y) <= 0;
    forall a: T, b: T ensures ByName(compare, name)(a, b) || ByName(compare, name)(b, a) {
      assert le(name(a), name(b)) || le(name(b), name(a));
    }
    forall a: T, b: T, c: T | ByName(compare, name)(a, b) && ByName(compare, name)(b, c)
      ensures ByName(compare, name)(a, c)
    {
      assert le(name(a), name(b)) && le(name(b), name(c));
    }
  }

  function CountryName(c: LocationCountry): (r: string) { c.name }
  function StateName(s: LocationState): (r: string) { s.name }
  function CityName(c: LocationCity): (r: string) { c.name }

  function ToCountry(c: CountryRecord): (r: LocationCountry) {
    LocationCountry(c.isoCode, c.name, c.flag)
  }

  function ToState(s: StateRecord): (r: LocationState) {
    LocationState(s.isoCode, s.name, s.countryCode)
  }

  /** `x || undefined`: an empty string counts as absent. */
  function OrAbsent(x: Option<string>): (r: Option<string>)
    ensures r.Some? <==> x.Some? && x.value != ""
    ensures r.Some? ==> r == x
  {
    if x == Some("") then None else x
  }

  function ToCity(c: CityRecord): (r: LocationCity) {
    LocationCity(c.name, c.stateCode, c.countryCode, OrAbsent(c.latitude), OrAbsent(c.longitude))
  }

  function CountryList(recs: seq<CountryRecord>): (r: seq<LocationCountry>)
    ensures |r| == |recs| && forall i :: 0 <= i < |recs| ==> r[i] == ToCountry(recs[i])
  {
    seq(|recs|, i requires 0 <= i < |recs| => ToCountry(recs[i]))
  }

  function StateList(recs: seq<StateRecord>): (r: seq<LocationState>)
    ensures |r| == |recs| && forall i :: 0 <= i < |recs| ==> r[i] == ToState(recs[i])
  {
    seq(|recs|, i requires 0 <= i < |recs| => ToState(recs[i]))
  }

  function CityList(recs: seq<CityRecord>): (r: seq<LocationCity>)
    ensures |r| == |recs| && forall i :: 0 <= i < |recs| ==> r[i] == ToCity(recs[i])
  {
    seq(|recs|, i requires 0 <= i < |recs| => ToCity(recs[i]))
  }

  function Supported(countries: seq<CountryRecord>): (r: seq<CountryRecord>)
    ensures forall c :: c in r <==> c in countries && IsCountrySupported(c.isoCode)
  {
    Filter(countries, (c: CountryRecord) => IsCountrySupported(c.isoCode))
  }

  /** `getSupportedCountries`. */
  function GetSupportedCountries(data: LocationData, compare: (string, string) -> int): (r: seq<LocationCountry>)
    ensures |r| <= |data.countries|
  {
    SortBy(CountryList(Supported(data.countries)), ByName(compare, CountryName))
  }

  /** `getStatesByCountry`. */
  function GetStatesByCountry(data: LocationData, compare: (string, string) -> int, countryCode: string): (r: seq<LocationState>)
    ensures |r| == if IsCountrySupported(countryCode) then |data.statesOf(countryCode)| else 0
  {
    if !IsCountrySupported(countryCode) then []
    else
      SortBy(StateList(data.statesOf(countryCode)), ByName(compare, StateName))
  }

  /** `getCitiesByState`. */
  function GetCitiesByState(data: LocationData, compare: (string, string) -> int, countryCode: string, stateCode: string): (r: seq<LocationCity>)
    ensures |r| == if IsCountrySupported(countryCode) then |data.citiesOf(countryCode, stateCode)| else 0
  {
    if !IsCountrySupported(countryCode) then []
    else
      SortBy(CityList(data.citiesOf(countryCode, stateCode)), ByName(compare, CityName))
  }

  /** `getCountryByCode`. */
  function GetCountryByCode(data: LocationData, compare: (string, string) -> int, countryCode: string): (r: Option<LocationCountry>)
    ensures r.Some? ==> r.value.code == countryCode && r.value in GetSupportedCountries(data, compare)
  {
    Find(GetSupportedCountries(data, compare), (c: LocationCountry) => c.code == countryCode)
  }

  /** `getStateByCode`. */
  function GetStateByCode(data: LocationData, compare: (string, string) -> int, countryCode: string, stateCode: string): (r: Option<LocationState>)
    ensures r.Some? ==> r.value.code == stateCode && r.value in GetStatesByCountry(data, compare, countryCode)
  {
    Find(GetStatesByCountry(data, compare, countryCode), (s: LocationState) => s.code == stateCode)
  }

  // ---- Deduplication of the cities of a country ----

  /** The identity of a city for deduplication. */
  function CityKey(c: LocationCity): (k: (string, string)) { (c.name, c.countryCode) }

  function SameKey(c: LocationCity): (r: LocationCity -> bool) {
    (d: LocationCity) => d.name == c.name && d.countryCode == c.countryCode
  }

  /** `index === self.findIndex(...)`: position `i` holds the first city with its key. */
  predicate IsFirstOfKey(s: seq<LocationCity>, i: nat)
    requires i < |s|
  {
    FindIndex(s, SameKey(s[i])) == i
  }

  /** The `filter` with that test, over the positions from `i` on. */
  function KeepFirstFrom(s: seq<LocationCity>, i: nat): (r: seq<LocationCity>)
    requires i <= |s|
    decreases |s| - i
  {
    if i == |s| then []
    else (if IsFirstOfKey(s, i) then [s[i]] else []) + KeepFirstFrom(s, i + 1)
  }

  function KeepFirst(s: seq<LocationCity>): (r: seq<LocationCity>) {
    KeepFirstFrom(s, 0)
  }

  /** The cities of the given states, list after list, in the order of `states`. */
  function CitiesOfStates(data: LocationData, compare: (string, string) -> int, countryCode: string,
                          states: seq<LocationState>): (r: seq<LocationCity>)
  {
    if states == [] then []
    else
      var last := states[|states| - 1];
      CitiesOfStates(data, compare, countryCode, states[..|states| - 1]) + GetCitiesByState(data, compare, countryCode, last.code)
  }

  /** The deduplicated cities, sorted by name. */
  function FirstOfEachSorted(all: seq<LocationCity>, compare: (string, string) -> int): (r: seq<LocationCity>) {
    SortBy(KeepFirst(all), ByName(compare, CityName))
  }

  /** The cities of all states of the country, state after state. */
  function GatheredCities(data: LocationData, compare: (string, string) -> int, countryCode: string): (r: seq<LocationCity>) {
    CitiesOfStates(data, compare, countryCode, GetStatesByCountry(data, compare, countryCode))
  }

  /** What `getAllCitiesByCountry` returns. */
  function AllCitiesByCountry(data: LocationData, compare: (string, string) -> int, countryCode: string): (r: seq<LocationCity>)
    ensures !IsCountrySupported(countryCode) ==> r == []
  {
    if !IsCountrySupported(countryCode) then []
    else
      FirstOfEachSorted(GatheredCities(data, compare, countryCode), compare)
  }

  lemma CitiesOfStatesSnoc(data: LocationData, compare: (string, string) -> int, countryCode: string,
                           states: seq<LocationState>, i: nat)
    requires i < |states|
    ensures CitiesOfStates(data, compare, countryCode, states[..i + 1])
         == CitiesOfStates(data, compare, countryCode, states[..i]) + GetCitiesByState(data, compare, countryCode, states[i].code)
  {
    assert states[..i + 1][..i] == states[..i];
  }

  /** `getAllCitiesByCountry`: gathers the cities of every state of the country
      in a loop, then keeps the first city of each key and sorts by name. */
  method GetAllCitiesByCountry(data: LocationData, compare: (string, string) -> int, countryCode: string)
      returns (r: seq<LocationCity>)
    ensures r == AllCitiesByCountry(data, compare, countryCode)
  {
    if !IsCountrySupported(countryCode) {
      return [];
    }
    var states := GetStatesByCountry(data, compare, countryCode);
    var allCities: seq<LocationCity> := [];
    var i := 0;
    while i < |states|
      invariant 0 <= i <= |states|
      invariant allCities == CitiesOfStates(data, compare, countryCode, states[..i])
    {
      CitiesOfStatesSnoc(data, compare, countryCode, states, i);
      allCities := allCities + GetCitiesByState(data, compare, countryCode, states[i].code);
      i := i + 1;
    }
    assert states[..i] == states;
    r := FirstOfEachSorted(allCities, compare);
  }

  // ---- Properties ----

  /** The three list lookups answer nothing for an unsupported country. */
  lemma UnsupportedCountryHasNothing(data: LocationData, compare: (string, string) -> int, countryCode: string, stateCode: string)
    requires !IsCountrySupported(countryCode)
    ensures GetStatesByCountry(data, compare, countryCode) == []
    ensures GetCitiesByState(data, compare, countryCode, stateCode) == []
    ensures AllCitiesByCountry(data, compare, countryCode) == []
    ensures GetStateByCode(data, compare, countryCode, stateCode) == None
  {
  }

  /** The supported countries are exactly the data set's countries with a
      supported code, converted. */
  lemma SupportedCountriesAreExactlyThese(data: LocationData, compare: (string, string) -> int)
    ensures forall c :: c in GetSupportedCountries(data, compare) <==>
      exists rec :: rec in data.countries && IsCountrySupported(rec.isoCode) && c == ToCountry(rec)
    ensures forall c :: c in GetSupportedCountries(data, compare) ==> IsCountrySupported(c.code)
  {
    var kept := Supported(data.countries);
    var mapped := CountryList(kept);
    SortByMembers(mapped, ByName(compare, CountryName));
    forall c | c in mapped ensures exists rec :: rec in data.countries && IsCountrySupported(rec.isoCode) && c == ToCountry(rec) {
      var i :| 0 <= i < |kept| && mapped[i] == c;
      assert kept[i] in kept;
    }
    forall rec | rec in data.countries && IsCountrySupported(rec.isoCode) ensures ToCountry(rec) in mapped {
      assert rec in kept;
      var i :| 0 <= i < |kept| && kept[i] == rec;
      assert mapped[i] == ToCountry(rec);
    }
  }

  lemma SupportedCountriesSorted(data: LocationData, compare: (string, string) -> int)
    requires ConsistentCollation(compare)
    ensures SortedBy(GetSupportedCountries(data, compare), ByName(compare, CountryName))
  {
    var kept := Supported(data.countries);
    ByNameIsTotalPreorder(compare, CountryName);
    SortBySorted(CountryList(kept), ByName(compare, CountryName));
  }

  /** For a supported country, the states are those of the data set, converted, sorted by name. */
  lemma StatesOfSupportedCountry(data: LocationData, compare: (string, string) -> int, countryCode: string)
    requires IsCountrySupported(countryCode)
    ensures forall s :: s in GetStatesByCountry(data, compare, countryCode) <==>
      exists rec :: rec in data.statesOf(countryCode) && s == ToState(rec)
    ensures ConsistentCollation(compare) ==>
      SortedBy(GetStatesByCountry(data, compare, countryCode), ByName(compare, StateName))
  {
    var mapped := StateList(data.statesOf(countryCode));
    SortByMembers(mapped, ByName(compare, StateName));
    forall s | s in mapped ensures exists rec :: rec in data.statesOf(countryCode) && s == ToState(rec) {
      var i :| 0 <= i < |mapped| && mapped[i] == s;
      assert data.statesOf(countryCode)[i] in data.statesOf(countryCode);
    }
    forall rec | rec in data.statesOf(countryCode) ensures ToState(rec) in mapped {
      var i :| 0 <= i < |mapped| && data.statesOf(countryCode)[i] == rec;
      assert mapped[i] == ToState(rec);
    }
    if ConsistentCollation(compare) {
      ByNameIsTotalPreorder(compare, StateName);
      SortBySorted(mapped, ByName(compare, StateName));
    }
  }


  /** For a supported country, the cities of a state are those of the data set,
      converted, sorted by name. */
  lemma CitiesOfSupportedCountry(data: LocationData, compare: (string, string) -> int, countryCode: string, stateCode: string)
    requires IsCountrySupported(countryCode)
    ensures forall c :: c in GetCitiesByState(data, compare, countryCode, stateCode) <==>
      exists rec :: rec in data.citiesOf(countryCode, stateCode) && c == ToCity(rec)
    ensures ConsistentCollation(compare) ==>
      SortedBy(GetCitiesByState(data, compare, countryCode, stateCode), ByName(compare, CityName))
  {
    var cities := data.citiesOf(countryCode, stateCode);
    var mapped := CityList(cities);
    SortByMembers(mapped, ByName(compare, CityName));
    forall c | c in mapped ensures exists rec :: rec in cities && c == ToCity(rec) {
      var i :| 0 <= i < |mapped| && mapped[i] == c;
      assert cities[i] in cities;
    }
    forall rec | rec in cities ensures ToCity(rec) in mapped {
      var i :| 0 <= i < |mapped| && cities[i] == rec;
      assert mapped[i] == ToCity(rec);
    }
    if ConsistentCollation(compare) {
      ByNameIsTotalPreorder(compare, CityName);
      SortBySorted(mapped, ByName(compare, CityName));
    }
  }

  /** Whatever the country, every city `getCitiesByState` lists comes from the
      data set's cities of that country and state. */
  lemma CitiesOfSupportedCountryMembers(data: LocationData, compare: (string, string) -> int, countryCode: string, stateCode: string)
    ensures GetCitiesByState(data, compare, countryCode, stateCode) != [] ==>
      forall c :: c in GetCitiesByState(data, compare, countryCode, stateCode) ==>
        exists rec :: rec in data.citiesOf(countryCode, stateCode) && c == ToCity(rec)
  {
    if IsCountrySupported(countryCode) {
      CitiesOfSupportedCountry(data, compare, countryCode, stateCode);
    }
  }

  /** `getCountryByCode` finds a supported country with that code, and answers
      None exactly when the data set has no supported country with it. */
  lemma CountryByCode(data: LocationData, compare: (string, string) -> int, countryCode: string)
    ensures var r := GetCountryByCode(data, compare, countryCode);
      && (r.Some? ==> r.value in GetSupportedCountries(data, compare) && r.value.code == countryCode)
      && (r.None? <==> forall rec :: rec in data.countries && IsCountrySupported(rec.isoCode) ==> rec.isoCode != countryCode)
  {
    SupportedCountriesAreExactlyThese(data, compare);
    var r := GetCountryByCode(data, compare, countryCode);
    if r.None? {
      forall rec | rec in data.countries && IsCountrySupported(rec.isoCode) ensures rec.isoCode != countryCode {
        assert ToCountry(rec) in GetSupportedCountries(data, compare);
      }
    }
  }

  /** `getStateByCode` finds a state of the country with that code, and answers
      None exactly when there is none. */
  lemma StateByCode(data: LocationData, compare: (string, string) -> int, countryCode: string, stateCode: string)
    ensures var r := GetStateByCode(data, compare, countryCode, stateCode);
      && (r.Some? ==> r.value in GetStatesByCountry(data, compare, countryCode) && r.value.code == stateCode)
      && (r.None? <==> forall s :: s in GetStatesByCountry(data, compare, countryCode) ==> s.code != stateCode)
  {
  }

  // ---- Properties of the deduplication ----

  /** `findIndex` depends only on which elements satisfy the test. */
  lemma FindIndexSameTest<T(!new)>(s: seq<T>, p: T -> bool, q: T -> bool)
    requires forall x :: p(x) == q(x)
    ensures FindIndex(s, p) == FindIndex(s, q)
  {
    var i, j := FindIndex(s, p), FindIndex(s, q);
    if i >= 0 { assert q(s[i]); }
    if j >= 0 { assert p(s[j]); }
  }

  lemma {:induction false} KeepFirstFromMembers(s: seq<LocationCity>, i: nat)
    requires i <= |s|
    decreases |s| - i
    ensures forall x :: x in KeepFirstFrom(s, i) <==> exists k :: i <= k < |s| && s[k] == x && IsFirstOfKey(s, k)
  {
    if i < |s| {
      KeepFirstFromMembers(s, i + 1);
    }
  }

  /** A city kept as first of its key differs in key from every city before it. */
  lemma FirstOfKeyIsNew(s: seq<LocationCity>, j: nat, k: nat)
    requires j < k < |s| && IsFirstOfKey(s, k)
    ensures CityKey(s[j]) != CityKey(s[k])
  {
    assert !SameKey(s[k])(s[j]);
  }

  /** No city kept from position `i` on shares its key with the city at an earlier position `j`. */
  lemma {:induction false} KeepFirstFromFresh(s: seq<LocationCity>, i: nat, j: nat)
    requires j < i <= |s|
    decreases |s| - i
    ensures forall y :: y in KeepFirstFrom(s, i) ==> CityKey(y) != CityKey(s[j])
  {
    if i < |s| {
      KeepFirstFromFresh(s, i + 1, j);
      if IsFirstOfKey(s, i) {
        FirstOfKeyIsNew(s, j, i);
      }
    }
  }

  lemma {:induction false} KeepFirstFromDistinct(s: seq<LocationCity>, i: nat)
    requires i <= |s|
    decreases |s| - i
    ensures DistinctBy(KeepFirstFrom(s, i), CityKey)
  {
    if i < |s| {
      var rest := KeepFirstFrom(s, i + 1);
      KeepFirstFromDistinct(s, i + 1);
      if IsFirstOfKey(s, i) {
        KeepFirstFromFresh(s, i + 1, i);
        DistinctByCons(s[i], rest, CityKey);
        assert KeepFirstFrom(s, i) == [s[i]] + rest;
      } else {
        assert KeepFirstFrom(s, i) == rest;
      }
    }
  }


  /** No two kept cities share a name and country code. */
  lemma KeepFirstDistinct(s: seq<LocationCity>)
    ensures DistinctBy(KeepFirst(s), CityKey)
  {
    KeepFirstFromDistinct(s, 0);
  }

  /** Every kept city is the first city of `s` with its key. */
  lemma KeepFirstKeepsFirst(s: seq<LocationCity>)
    ensures forall d :: d in KeepFirst(s) ==>
      exists k :: 0 <= k < |s| && s[k] == d && forall j :: 0 <= j < k ==> CityKey(s[j]) != CityKey(d)
  {
    KeepFirstFromMembers(s, 0);
    forall d | d in KeepFirst(s)
      ensures exists k :: 0 <= k < |s| && s[k] == d && forall j :: 0 <= j < k ==> CityKey(s[j]) != CityKey(d)
    {
      var k :| 0 <= k < |s| && s[k] == d && IsFirstOfKey(s, k);
      forall j | 0 <= j < k ensures CityKey(s[j]) != CityKey(d) {
        assert !SameKey(s[k])(s[j]);
      }
    }
  }

  /** Every key of `s` is kept. */
  lemma KeepFirstCoversKeys(s: seq<LocationCity>)
    ensures forall c :: c in s ==> exists d :: d in KeepFirst(s) && CityKey(d) == CityKey(c)
  {
    KeepFirstFromMembers(s, 0);
    forall c | c in s ensures exists d :: d in KeepFirst(s) && CityKey(d) == CityKey(c) {
      var k :| 0 <= k < |s| && s[k] == c;
      assert SameKey(c)(s[k]);
      var m := FindIndex(s, SameKey(c));
      assert SameKey(c)(s[m]);
      FindIndexSameTest(s, SameKey(s[m]), SameKey(c));
      assert IsFirstOfKey(s, m);
      assert 0 <= m < |s| && s[m] == s[m] && IsFirstOfKey(s, m);
      assert s[m] in KeepFirst(s) && CityKey(s[m]) == CityKey(c);
    }
  }

  /** A city is among the gathered ones iff one of the states lists it. */
  lemma {:induction false} CitiesOfStatesMembers(data: LocationData, compare: (string, string) -> int, countryCode: string,
                                                 states: seq<LocationState>)
    ensures forall c :: c in CitiesOfStates(data, compare, countryCode, states) <==>
      exists s :: s in states && c in GetCitiesByState(data, compare, countryCode, s.code)
  {
    if states != [] {
      var init := states[..|states| - 1];
      CitiesOfStatesMembers(data, compare, countryCode, init);
      assert states == init + [states[|states| - 1]];
    }
  }

  /** Deduplicating then sorting keeps exactly the deduplicated cities. */
  lemma FirstOfEachSortedMembers(all: seq<LocationCity>, compare: (string, string) -> int)
    ensures forall d :: d in FirstOfEachSorted(all, compare) <==> d in KeepFirst(all)
  {
    var kept := KeepFirst(all);
    var r := FirstOfEachSorted(all, compare);
    forall d ensures d in r <==> d in kept {
      assert d in r <==> d in multiset(r);
      assert d in kept <==> d in multiset(kept);
    }
  }

  /** What the result `r` of deduplicating and sorting the gathered cities
      `all` guarantees: no two cities with the same name and country code;
      each is the first city of `all` with its key (so nothing else is in
      it); every key of `all` is present; and it is sorted by name. */
  ghost predicate FirstOfEachKeySorted(r: seq<LocationCity>, all: seq<LocationCity>, compare: (string, string) -> int) {
    && DistinctBy(r, CityKey)
    && (forall d :: d in r ==> exists k :: 0 <= k < |all| && all[k] == d && forall j :: 0 <= j < k ==> CityKey(all[j]) != CityKey(d))
    && (forall c :: c in all ==> exists d :: d in r && CityKey(d) == CityKey(c))
    && (ConsistentCollation(compare) ==> SortedBy(r, ByName(compare, CityName)))
  }

  lemma FirstOfEachSortedProperties(all: seq<LocationCity>, compare: (string, string) -> int)
    ensures FirstOfEachKeySorted(FirstOfEachSorted(all, compare), all, compare)
  {
    KeepFirstDistinct(all);
    SortByDistinct(KeepFirst(all), ByName(compare, CityName), CityKey);
    KeepFirstKeepsFirst(all);
    KeepFirstCoversKeys(all);
    FirstOfEachSortedMembers(all, compare);
    if ConsistentCollation(compare) {
      ByNameIsTotalPreorder(compare, CityName);
      SortBySorted(KeepFirst(all), ByName(compare, CityName));
    }
  }

  /** The result of `getAllCitiesByCountry` for a supported country has those
      properties over the cities gathered from all its states. */
  lemma AllCitiesByCountryProperties(data: LocationData, compare: (string, string) -> int, countryCode: string)
    requires IsCountrySupported(countryCode)
    ensures FirstOfEachKeySorted(AllCitiesByCountry(data, compare, countryCode), GatheredCities(data, compare, countryCode), compare)
  {
    FirstOfEachSortedProperties(GatheredCities(data, compare, countryCode), compare);
  }
}
