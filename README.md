# Address book core, modelled in Dafny

This project models the logic of an Angular address book in Dafny and proves
properties of it. The app keeps an in-memory list of postal addresses, seeded
with twenty generated entries. The user can:

- search the list and sort it by creation time;
- page through it in a table;
- remove entries;
- add entries through a dialog. The dialog's form cascades country → state →
  city pick-lists from a location data set, validates the fields, and trims
  them before submitting.

An HTTP interceptor adds the session's access token to requests sent to the
app's own back end.

Modules, one per source file of the core, plus shared helpers:

| file | module | models |
|---|---|---|
| `address_model.dfy` | `AddressModel` | the `Address`, `CreateAddressRequest` and update records |
| `addresses_service.dfy` | `AddressesService` | the store: a class holding the list, with add/remove/update |
| `default_addresses.dfy` | `DefaultAddresses` | `createAddress` and the twenty seed records |
| `addresses_map.dfy` | `AddressesMap` | the searched and sorted view, and removal from the page |
| `address_table.dfy` | `AddressTable` | pagination state and the page slice |
| `location_service.dfy` | `LocationService` | supported countries, the state/city lookups, city deduplication |
| `address_form.dfy` | `AddressForm` | validators, cascading resets, trimming, what the form emits |
| `address_dialog.dfy` | `AddressDialog` | choosing the address to add and forwarding it to the store |
| `auth_token_interceptor.dfy` | `AuthTokenInterceptor` | the bearer-token decision |
| `seqs.dfy`, `sorting.dfy`, `text.dfy`, `wrappers.dfy` | helpers | these model JavaScript built-ins: `filter`, `find`, `findIndex`, a stable `sort`, `toLowerCase`, `includes`, `trim`, `length`, `String(n)` |

Modelling choices:

- A `Date` is modelled as its `getTime()` value, in milliseconds.
- JavaScript's `Array.prototype.sort` is stable (section 23.1.3.30 of
  ECMA-262, 2023 edition). It is modelled by `Sorting.SortBy`, an insertion
  sort that keeps `a` before `b` when the comparator is not positive.
  `Sorting.SortByIsTheStableSort` proves that it is the only ordering that is
  sorted and keeps the order of ties. So under a consistent comparator it is
  exactly what the engine must return.
- The random id (`generateId`) and the clock (`new Date()`) are parameters of
  the store's `AddAddress`.
- The location data set (`country-state-city`) is an input, the
  `LocationData` value. So is the collation behind `localeCompare`: a
  `compare` function. Sortedness is proved for any `compare` whose "not
  positive" relation is a total preorder (`ConsistentCollation`).
- Components are classes whose fields are the component's signals. Each
  handler is a method with a frame. Each `computed` signal is a function that
  reads the fields.

## Model

| member | source | states |
|---|---|---|
| AddressesService.AddressStore.constructor | src/app/features/address-map/services/addresses.service.ts:9 | the store starts with exactly the seed list |
| AddressesService.AddressStore.AddAddress | src/app/features/address-map/services/addresses.service.ts:13-21 | the new list is the old one with one record appended, built from the request, the supplied id and the supplied time |
| AddressesService.AddressStore.RemoveAddress | src/app/features/address-map/services/addresses.service.ts:23-25 | the new list is the old one filtered to the records with another id |
| AddressesService.AddressStore.UpdateAddress | src/app/features/address-map/services/addresses.service.ts:27-31 | the new list is the old one with every record of that id merged with the update |
| AddressesService.NewAddress | src/app/features/address-map/services/addresses.service.ts:14-18 | the appended record copies the five request fields and carries the given id and timestamp |
| AddressesService.Merge | src/app/features/address-map/services/addresses.service.ts:29 | id and creation time are kept; each supplied field overwrites and each absent one keeps its prior value |
| AddressesService.Removed | src/app/features/address-map/services/addresses.service.ts:24 | no longer than the list, and holds a record iff the list holds it and its id differs (order: `RemoveKeepsOthers`) |
| AddressesService.Updated | src/app/features/address-map/services/addresses.service.ts:28-30 | the list keeps its length; `UpdateTouchesOnlyMatches` states that exactly the records with that id are merged |
| AddressesService.AddAppendsOne | src/app/features/address-map/services/addresses.service.ts:20 | adding grows the list by one at the end and leaves every earlier record and their order unchanged |
| AddressesService.AddKeepsIdsUnique | src/app/features/address-map/services/addresses.service.ts:13-20 | unique ids stay unique after adding a record with a fresh id |
| AddressesService.RemoveKeepsOthers | src/app/features/address-map/services/addresses.service.ts:23-25 | a record survives removal iff it was present with another id, and then with every copy it had; survivors keep their relative order; an absent id leaves an identical list |
| AddressesService.RemoveKeepsIdsUnique | src/app/features/address-map/services/addresses.service.ts:24 | removal never breaks unique ids |
| AddressesService.UpdateTouchesOnlyMatches | src/app/features/address-map/services/addresses.service.ts:27-31 | update keeps length, order, every id and creation time and the set of ids; records with another id are untouched; matching ones are merged; unique ids stay unique |
| AddressesService.RunKeepsIdsUnique | src/app/features/address-map/services/addresses.service.ts:13-31 | any sequence of adds with fresh ids, removes and updates keeps ids unique |
| AddressesService.RemoveFiveFromSeed | src/app/features/address-map/services/addresses.service.ts:24 | removing id "5" from the seed leaves 19 records, none with that id |
| DefaultAddresses.CreateAddressId | src/app/features/address-map/constants/default-addresses.ts:35 | the id is the decimal numeral of the number, and reads back as that number |
| DefaultAddresses.CreateAddress | src/app/features/address-map/constants/default-addresses.ts:29-43 | no contract of its own: its id, street, catalog row and date are stated by the `CreateAddress…` lemmas of this table |
| DefaultAddresses.CreateAddressSameRow | src/app/features/address-map/constants/default-addresses.ts:30 | two ids are filled from the same catalog row iff they are equal modulo ten, the catalog's length (its ten rows are distinct) |
| DefaultAddresses.CreateAddressSameStreetName | src/app/features/address-map/constants/default-addresses.ts:31-36 | two ids carry the same street name iff they are equal modulo ten, the number of street names (the ten names are distinct) |
| DefaultAddresses.CreateAddressStreet | src/app/features/address-map/constants/default-addresses.ts:31-36 | the street is house number 100 + id, a space, one of the ten street names and " Street"; which ids share a name is fixed by `CreateAddressSameStreetName` |
| DefaultAddresses.CreateAddressCatalogRow | src/app/features/address-map/constants/default-addresses.ts:30-40 | city, state, postal code and country all come from a single catalog row; which ids share a row is fixed by `CreateAddressSameRow` |
| DefaultAddresses.CreateAddressCycles | src/app/features/address-map/constants/default-addresses.ts:30-36 | ids ten apart share the catalog row and the street name, with house numbers ten apart |
| DefaultAddresses.CreateAddressDate | src/app/features/address-map/constants/default-addresses.ts:41 | the creation time is midnight of a day of January 2024, offset id % 28 days from the first |
| DefaultAddresses.SeedIds | src/app/features/address-map/constants/default-addresses.ts:45-47 | there are 20 seed records, whose ids are "1" .. "20" in order |
| DefaultAddresses.SeedIdsDistinct | src/app/features/address-map/constants/default-addresses.ts:45-47 | seed ids are pairwise distinct |
| DefaultAddresses.SeedCreatedAtIncreasing | src/app/features/address-map/constants/default-addresses.ts:41-47 | seed record i is dated January 2 + i, so creation times strictly increase along the seed |
| AddressesMap.SearchKey | src/app/features/address-map/addresses-map.component.ts:55 | the lower-cased term is empty exactly when the term is null or empty; it is not trimmed |
| AddressesMap.Matches | src/app/features/address-map/addresses-map.component.ts:61-68 | the key occurs in one of the five lower-cased text fields; `SearchKeepsExactlyMatches` ties it to the view |
| AddressesMap.Filtered | src/app/features/address-map/addresses-map.component.ts:60-69 | never holds a record the list lacks, nor more copies of it; `EmptySearchKeepsAll` and `SearchKeepsExactlyMatches` give its two branches |
| AddressesMap.Compare | src/app/features/address-map/addresses-map.component.ts:71-74 | zero iff both records have the same creation time; negative iff `a` is newer under "newest", and iff `a` is older under any other order |
| AddressesMap.FilteredAddresses | src/app/features/address-map/addresses-map.component.ts:54-75 | the view holds no record the store lacks, nor more copies; order and ties are stated by `NewestIsDescending`, `OtherwiseAscending` and `TiesKeepInputOrder` |
| AddressesMap.Precedes | src/app/features/address-map/addresses-map.component.ts:71-74 | for 'newest' a record may precede one created no later; for any other order, null included, one created no earlier |
| AddressesMap.PrecedesIsTotalPreorder | src/app/features/address-map/addresses-map.component.ts:71-74 | the comparator is consistent: total and transitive |
| AddressesMap.EmptySearchKeepsAll | src/app/features/address-map/addresses-map.component.ts:60-69 | with a null or empty term the view is a permutation of the whole list |
| AddressesMap.SearchKeepsExactlyMatches | src/app/features/address-map/addresses-map.component.ts:60-68 | with a non-empty term a record is shown iff it is in the list and the term occurs in one of its five lower-cased fields |
| AddressesMap.SearchKeepsEveryCopy | src/app/features/address-map/addresses-map.component.ts:60-68 | with a non-empty term the view holds exactly the matching records of the list, each with as many copies as the list has, and no copy of a record that does not match |
| AddressesMap.ViewIsSubMultiset | src/app/features/address-map/addresses-map.component.ts:58-69 | the view holds no record the store lacks and never more copies than the store |
| AddressesMap.NewestIsDescending | src/app/features/address-map/addresses-map.component.ts:71-73 | 'newest' yields non-increasing creation times |
| AddressesMap.OtherwiseAscending | src/app/features/address-map/addresses-map.component.ts:71-74 | every other order yields non-decreasing creation times |
| AddressesMap.EquivalentsAreSameTime | src/app/features/address-map/addresses-map.component.ts:71-74 | the comparator's ties are exactly the records with one creation time |
| AddressesMap.TiesKeepInputOrderOf | src/app/features/address-map/addresses-map.component.ts:71 | sorting keeps the relative order of records created at the same time |
| AddressesMap.TiesKeepInputOrder | src/app/features/address-map/addresses-map.component.ts:60-71 | in the view, records with equal creation time appear in their order in the list |
| AddressesMap.ReversedOldestIsNewestSorted | src/app/features/address-map/addresses-map.component.ts:71-74 | reversing an oldest-first list gives a newest-first list |
| AddressesMap.NewestIsReversedOldest | src/app/features/address-map/addresses-map.component.ts:54-75 | when creation times are distinct, the 'newest' view is the 'oldest' view reversed |
| AddressesMap.SearchFoldsCase | src/app/features/address-map/addresses-map.component.ts:55-68 | searching the seed for "TORONTO" finds the Toronto record |
| AddressesMap.AddressesMapComponent.constructor | src/app/features/address-map/addresses-map.component.ts:40-50 | the page starts with the empty term and the 'newest' order |
| AddressesMap.AddressesMapComponent.View | src/app/features/address-map/addresses-map.component.ts:54-75 | the displayed list holds no record the store lacks, nor more copies of it |
| AddressesMap.AddressesMapComponent.OnSearchChanged | src/app/features/address-map/addresses-map.component.ts:43-46 | a new term replaces the old one and leaves the order |
| AddressesMap.AddressesMapComponent.OnSortChanged | src/app/features/address-map/addresses-map.component.ts:47-50 | a new order replaces the old one and leaves the term |
| AddressesMap.AddressesMapComponent.OnRemoveAddress | src/app/features/address-map/addresses-map.component.ts:86-88 | the store's list becomes the old one without the records of that id |
| Sorting.SortBy | src/app/features/address-map/addresses-map.component.ts:71-74 | the sorted list is a permutation of its input |
| Sorting.SortBySorted | src/app/features/address-map/addresses-map.component.ts:71-74 | under a total preorder, the result is sorted |
| Sorting.SortByStable | src/app/features/address-map/addresses-map.component.ts:71-74 | the elements ranked equal to any x keep their relative order |
| Sorting.SortByIsTheStableSort | src/app/features/address-map/addresses-map.component.ts:71-74 | any list that is sorted and keeps every tie class in order equals the result |
| Sorting.SortByDistinct | src/app/features/address-map/services/location.service.ts:137 | sorting keeps keys distinct |
| Seqs.Filter | src/app/features/address-map/services/addresses.service.ts:24 | `filter` keeps exactly the elements satisfying the test, never more of any element than there were; copy counts in `FilterCounts` |
| Seqs.FilterCounts | src/app/features/address-map/services/addresses.service.ts:24 | `filter` keeps every copy of an element satisfying the test and no copy of one that fails it |
| Seqs.FilterIsSubsequence | src/app/features/address-map/services/addresses.service.ts:24 | `filter` keeps the relative order |
| Seqs.FindIndex | src/app/features/address-map/services/location.service.ts:135 | `findIndex` is the first position passing the test, or -1 iff none passes |
| Seqs.Find | src/app/features/address-map/services/location.service.ts:142 | `find` is None iff nothing passes, otherwise the first element passing |
| Text.Lower | src/app/features/address-map/addresses-map.component.ts:55 | lower-casing keeps the length |
| Text.Trim | src/app/features/address-map/components/address-dialog/address-form/address-form.component.ts:221-225 | the result is a factor of the input after whitespace only and before whitespace only, with no whitespace at either end |
| Text.TrimIdempotent | src/app/features/address-map/components/address-dialog/address-form/address-form.component.ts:221-225 | trimming twice is trimming once |
| Text.TrimBlank | src/app/features/address-map/components/address-dialog/address-form/address-form.component.ts:222 | trimming gives the empty string iff the input is all whitespace |
| Text.Utf16Length | src/app/features/address-map/components/address-dialog/address-form/address-form.component.ts:148 | length in UTF-16 units lies between the character count and twice it, and equals it for BMP text |
| Text.NatToDecimal | src/app/features/address-map/constants/default-addresses.ts:35 | the numeral is a non-empty string of digits, one digit iff the number is below 10 |
| Text.DecimalRoundTrip | src/app/features/address-map/constants/default-addresses.ts:35 | reading the numeral back gives the number |
| Text.DecimalInjective | src/app/features/address-map/constants/default-addresses.ts:35 | distinct numbers have distinct numerals |
| AddressTable.Slice | src/app/features/address-map/components/address-table/address-table.component.ts:36 | `slice` clamps both bounds: empty from the end on or when the end is not after the start; otherwise the elements from `start` up to the clamped end |
| AddressTable.Page | src/app/features/address-map/components/address-table/address-table.component.ts:32-37 | a page has at most `size` records; it is empty when index*size is past the end; otherwise it is the run of min(size, n - start) records from start |
| AddressTable.AddressTableComponent.PagedAddresses | src/app/features/address-map/components/address-table/address-table.component.ts:32-37 | at most `pageSize` records; empty when `pageIndex * pageSize` is past the end; otherwise the run of min(pageSize, n - start) records from that start |
| AddressTable.PagesArePrefix | src/app/features/address-map/components/address-table/address-table.component.ts:32-37 | the first c pages together are the first min(c*size, n) records |
| AddressTable.AllPagesReproduceList | src/app/features/address-map/components/address-table/address-table.component.ts:32-37 | for a positive size, pages 0 .. ⌈n/size⌉-1 together are the whole list |
| AddressTable.AddressTableComponent.constructor | src/app/features/address-map/components/address-table/address-table.component.ts:29-30 | the table starts on page 0 with size 10 |
| AddressTable.AddressTableComponent.SetAddresses | src/app/features/address-map/components/address-table/address-table.component.ts:18 | a new input list leaves the page index and size as they were |
| AddressTable.AddressTableComponent.OnPage | src/app/features/address-map/components/address-table/address-table.component.ts:39-42 | both index and size take the event's values; nothing else changes |
| LocationService.DefaultCountryIsSupported | src/app/features/address-map/services/location.service.ts:24-63 | the default country 'UA' is supported |
| LocationService.IsCountrySupported | src/app/features/address-map/services/location.service.ts:150-152 | membership in the 29 supported codes; `DefaultCountryIsSupported` and `SupportedCodesAreUpperCase` are stated about it |
| LocationService.GetSupportedCountries | src/app/features/address-map/services/location.service.ts:69-82 | no more entries than the data set has countries; `SupportedCountriesAreExactlyThese` and `SupportedCountriesSorted` give contents and order |
| LocationService.GetStatesByCountry | src/app/features/address-map/services/location.service.ts:84-98 | as many entries as the data set has states for a supported country, none otherwise; contents and order in `StatesOfSupportedCountry` |
| LocationService.GetCitiesByState | src/app/features/address-map/services/location.service.ts:100-116 | as many entries as the data set has cities of that state for a supported country, none otherwise; contents and order in `CitiesOfSupportedCountry` |
| LocationService.GetCountryByCode | src/app/features/address-map/services/location.service.ts:140-143 | a country found has the requested code and is one of the supported countries listed |
| LocationService.GetStateByCode | src/app/features/address-map/services/location.service.ts:145-148 | a state found has the requested code and is one of the states listed for the country |
| LocationService.KeepFirst | src/app/features/address-map/services/location.service.ts:131-136 | no contract of its own: `KeepFirstDistinct`, `KeepFirstKeepsFirst` and `KeepFirstCoversKeys` state what it keeps |
| LocationService.AllCitiesByCountry | src/app/features/address-map/services/location.service.ts:118-138 | empty for an unsupported country; `AllCitiesByCountryProperties` states the rest |
| LocationService.SupportedCodesAreUpperCase | src/app/features/address-map/services/location.service.ts:150-152 | a supported code is two upper-case letters; the membership test is exact |
| LocationService.ByNameIsTotalPreorder | src/app/features/address-map/services/location.service.ts:81 | comparing by name under a consistent collation is a total preorder |
| LocationService.OrAbsent | src/app/features/address-map/services/location.service.ts:112-113 | a coordinate is kept iff present and non-empty |
| LocationService.UnsupportedCountryHasNothing | src/app/features/address-map/services/location.service.ts:84-121 | for an unsupported country, states, cities of a state and all cities are empty and no state is found by code |
| LocationService.SupportedCountriesAreExactlyThese | src/app/features/address-map/services/location.service.ts:69-80 | a country is listed iff the data set has it with a supported code; every listed code is supported |
| LocationService.SupportedCountriesSorted | src/app/features/address-map/services/location.service.ts:81 | the countries are sorted by name |
| LocationService.StatesOfSupportedCountry | src/app/features/address-map/services/location.service.ts:84-98 | for a supported country, a state is listed iff the data set has it; the list is sorted by name |
| LocationService.CitiesOfSupportedCountry | src/app/features/address-map/services/location.service.ts:100-116 | for a supported country, a city is listed iff the data set has it for that state, with empty coordinates dropped; the list is sorted by name |
| LocationService.CitiesOfSupportedCountryMembers | src/app/features/address-map/services/location.service.ts:100-116 | for any country code, every listed city is a data-set city of that country and state |
| LocationService.CountryByCode | src/app/features/address-map/services/location.service.ts:140-143 | the result is a supported country with that code, and is None iff the data set has no supported country with it |
| LocationService.StateByCode | src/app/features/address-map/services/location.service.ts:145-148 | the result is a listed state with that code, and is None iff no listed state has it |
| LocationService.FindIndexSameTest | src/app/features/address-map/services/location.service.ts:133-135 | `findIndex` depends only on which elements pass the test |
| LocationService.KeepFirstDistinct | src/app/features/address-map/services/location.service.ts:131-136 | after deduplication no two cities share name and country code |
| LocationService.KeepFirstKeepsFirst | src/app/features/address-map/services/location.service.ts:131-136 | each kept city is the first city of the list with its key |
| LocationService.KeepFirstCoversKeys | src/app/features/address-map/services/location.service.ts:131-136 | every key of the list is kept |
| LocationService.CitiesOfStatesMembers | src/app/features/address-map/services/location.service.ts:123-129 | a city is gathered iff one of the states lists it |
| LocationService.FirstOfEachSortedMembers | src/app/features/address-map/services/location.service.ts:131-137 | sorting the deduplicated cities neither adds nor loses any |
| LocationService.FirstOfEachSortedProperties | src/app/features/address-map/services/location.service.ts:131-137 | the result has distinct keys, each first of its key, every key present and sorted by name |
| LocationService.GetAllCitiesByCountry | src/app/features/address-map/services/location.service.ts:118-138 | the loop gathers the cities of every state in order; the result is the deduplicated, sorted list of them, or empty for an unsupported country |
| LocationService.AllCitiesByCountryProperties | src/app/features/address-map/services/location.service.ts:118-138 | for a supported country, all cities have distinct (name, country code), each is the first gathered with its key, every gathered key is present, nothing else is, and the list is sorted by name |
| AddressForm.ValidIff | src/app/features/address-map/components/address-dialog/address-form/address-form.component.ts:141-166 | the form is valid iff country, city and state are non-empty, the street has at least 5 UTF-16 units and the postal code matches the pattern; line 2 is free |
| AddressForm.MatchesPostalPattern | src/app/features/address-map/components/address-dialog/address-form/address-form.component.ts:164 | three to ten characters, each an ASCII letter of either case, a digit, whitespace or "-"; used by `ValidIff` |
| AddressForm.Accepts | src/app/features/address-map/components/address-dialog/address-form/address-form.component.ts:144-164 | one validator's verdict on one value: `required` rejects only "", `minLength` and the pattern let "" pass; used by `ValidIff` |
| AddressForm.IsValid | src/app/features/address-map/components/address-dialog/address-form/address-form.component.ts:122 | every control passes all its validators; spelled out by `ValidIff` |
| AddressForm.CurrentAddressValue | src/app/features/address-map/components/address-dialog/address-form/address-form.component.ts:217-227 | the submitted value; `CurrentAddressValueTrims` and `CurrentAddressValueIdempotent` are stated about it |
| AddressForm.StreetLengthInCharacters | src/app/features/address-map/components/address-dialog/address-form/address-form.component.ts:148 | for BMP text the minimum length counts characters |
| AddressForm.BlankStreetPassesValidation | src/app/features/address-map/components/address-dialog/address-form/address-form.component.ts:146-149 | validation sees the untrimmed value: five spaces pass, and the submitted street is then empty |
| AddressForm.TrimmedOrAbsent | src/app/features/address-map/components/address-dialog/address-form/address-form.component.ts:222 | line 2 is absent iff it trims to empty, otherwise it is the trimmed text |
| AddressForm.CurrentAddressValueTrims | src/app/features/address-map/components/address-dialog/address-form/address-form.component.ts:217-227 | the country is copied; street, city, state, postal code and a present line 2 are each a piece of the raw field with only whitespace cut from either end, and have no surrounding whitespace; line 2 is absent iff blank |
| AddressForm.CurrentAddressValueIdempotent | src/app/features/address-map/components/address-dialog/address-form/address-form.component.ts:217-227 | normalising an already normalised value changes nothing |
| AddressForm.AddressChangedEmission | src/app/features/address-map/components/address-dialog/address-form/address-form.component.ts:173-183 | a change is emitted iff country, city and state are non-empty |
| AddressForm.AddressChangedIsCurrentValue | src/app/features/address-map/components/address-dialog/address-form/address-form.component.ts:173-183 | what is emitted equals the value the form would submit, and a valid form always emits |
| AddressForm.BlankCityIsEmitted | src/app/features/address-map/components/address-dialog/address-form/address-form.component.ts:173-178 | the emit test looks at the untrimmed city, so a blank city is emitted as "" |
| AddressForm.AvailableStates | src/app/features/address-map/components/address-dialog/address-form/address-form.component.ts:73-76 | empty when no country is selected; with one selected it is exactly the service's `getStatesByCountry` answer, non-empty only for a supported country |
| AddressForm.AvailableCities | src/app/features/address-map/components/address-dialog/address-form/address-form.component.ts:78-84 | empty unless both country and state are selected; with both selected it is exactly the service's `getCitiesByState` answer, which is non-empty only for a supported country and then lists cities of that state only |
| AddressForm.AddressFormComponent.constructor | src/app/features/address-map/components/address-dialog/address-form/address-form.component.ts:133-166 | after initialisation the default country is selected and in the form, no state is selected and every other field is empty |
| AddressForm.AddressFormComponent.ChangeCountry | src/app/features/address-map/components/address-dialog/address-form/address-form.component.ts:192-201 | the country is set and selected, state and city are cleared, the selected state is kept, and nothing else changes |
| AddressForm.StaleStateListsCities | src/app/features/address-map/components/address-dialog/address-form/address-form.component.ts:78-84 | with the form's state empty the city list would be empty, but with the kept state it lists the new country's cities of that state whenever the data set has any |
| AddressForm.AddressFormComponent.ChangeCountryClearingState | src/app/features/address-map/components/address-dialog/address-form/address-form.component.ts:192-201 | as `ChangeCountry`, but the selected state is cleared too, so the city list agrees with the form and is empty |
| AddressForm.AddressFormComponent.ChangeStateProvince | src/app/features/address-map/components/address-dialog/address-form/address-form.component.ts:206-214 | the state is set and selected, only the city is cleared |
| AddressForm.AddressFormComponent.ChangeField | src/app/features/address-map/components/address-dialog/address-form/address-form.component.ts:34-41 | editing street, line 2, city or postal code changes only that field |
| AddressForm.AddressFormComponent.OnGenerateQrCode | src/app/features/address-map/components/address-dialog/address-form/address-form.component.ts:121-132 | an address is emitted iff the form is valid, and it is the trimmed current value; the form itself is unchanged |
| AddressForm.AddressFormComponent.OnQrCodeTimerElapsed | src/app/features/address-map/components/address-dialog/address-form/address-form.component.ts:128 | the progress flag is cleared |
| AddressDialog.Chosen | src/app/features/address-map/components/address-dialog/address-dialog.component.ts:37 | the submitted address when given, otherwise the remembered one; none iff both are absent |
| AddressDialog.Forwarded | src/app/features/address-map/components/address-dialog/address-dialog.component.ts:40-46 | the five fields are copied and line 2 is dropped |
| AddressDialog.ForwardedStoresSameRecord | src/app/features/address-map/components/address-dialog/address-dialog.component.ts:40-46 | dropping line 2 does not change the stored record |
| AddressDialog.AddressDialogComponent.constructor | src/app/features/address-map/components/address-dialog/address-dialog.component.ts:34 | no address is remembered at first |
| AddressDialog.AddressDialogComponent.OnAddressChanged | src/app/features/address-map/components/address-dialog/address-dialog.component.ts:57-59 | the reported address replaces the remembered one |
| AddressDialog.AddressDialogComponent.OnAddAddress | src/app/features/address-map/components/address-dialog/address-dialog.component.ts:36-46 | with neither address the store is unchanged; otherwise exactly one record, built from the chosen address's five fields, is appended |
| AuthTokenInterceptor.BearerCredentials | src/app/core/auth/auth-token.interceptor.ts:14 | the header value is "Bearer " followed by the token |
| AuthTokenInterceptor.IsAbsolute | src/app/core/auth/auth-token.interceptor.ts:7 | the URL starts with "http://" or "https://", letters in either case; `UpperCaseSchemeIsAbsolute` states that the case of the URL's letters never matters |
| AuthTokenInterceptor.NeedsToken | src/app/core/auth/auth-token.interceptor.ts:7-8 | a relative URL without an Authorization header; `Authorize` changes exactly such requests |
| AuthTokenInterceptor.UsableToken | src/app/core/auth/auth-token.interceptor.ts:12-14 | a token is used iff the session was fetched and carries a non-empty access token |
| AuthTokenInterceptor.Authorize | src/app/core/auth/auth-token.interceptor.ts:7-16 | URL and every other header are untouched; the request is changed iff it is relative, has no Authorization header and the session has a token; it then carries the bearer header |
| AuthTokenInterceptor.UpperCaseSchemeIsAbsolute | src/app/core/auth/auth-token.interceptor.ts:7 | for every URL, lower-casing its ASCII letters never changes whether it is absolute; as examples, an upper-case `HTTPS://` URL is absolute and an application path is relative |
| AuthTokenInterceptor.SentAsWritten | src/app/core/auth/auth-token.interceptor.ts:10-18 | the requests handed on as written (see Findings) |
| AuthTokenInterceptor.RejectedRequestIsResentWithoutToken | src/app/core/auth/auth-token.interceptor.ts:10-17 | for every request that needs a token and that the back end rejects once the session is fetched, the handler receives the authorised copy and then the original without a token; with no usable token it receives the original twice; only a failed session fetch sends it once; `/api/addresses` with token `t` is an example |
| AuthTokenInterceptor.Sent | src/app/core/auth/auth-token.interceptor.ts:10-18 | exactly one request is handed on: the authorised one |
| AuthTokenInterceptor.SentAsWrittenAgreesOnSuccess | src/app/core/auth/auth-token.interceptor.ts:11-17 | when the back end accepts the request, both versions agree |

## Left out

- Randomness and the clock: `generateId` and `new Date()` become parameters of `AddAddress`.
- AddressesService.AddressStore.AddAddress: has no freshness precondition, because `addAddress` does not check the id. Unique ids are proved under the `FreshAdds` hypothesis instead.
- Time zones: `new Date(2024, 0, d)` is local midnight. The model takes UTC midnight, which is what matters for ordering.
- A `Date` is modelled only by its millisecond time value.
- Text.Lower: folds only `A`-`Z`. JavaScript's `toLowerCase` folds all of Unicode.
- Header names: the model keys headers by lower-case name. Angular's `HttpHeaders` also remembers the original spelling for sending.
- The object spread in `addAddress` copies an `addressLine2` from the request into the stored record. The model's `Address` has no such field. The dialog never forwards one.
- Update keys that are present with the value `undefined`: `updateAddress`'s spread overwrites the field with `undefined`. The model treats such keys as absent.
- Timing: RxJS `debounceTime`, `distinctUntilChanged`, subscription order and `takeUntilDestroyed` are not modelled. Only the values that get through are modelled, as the component setters and `PendingAddressChange`.
- The one-second `setTimeout` is not modelled as time. Its effect is the separate method `OnQrCodeTimerElapsed`.
- Presentation effects are not modelled: the snackbar, opening and closing the dialog (`onCreateAddress`), `markAllAsTouched`, and the templates.
- The Google Maps component is not part of this model. It is an external API binding with floating-point coordinates.
- `auth.service.ts` is not part of this model. The session fetch is the `SessionOutcome` input.
- The header and route components are not part of this model. Neither is app configuration.
- The location data set and `localeCompare` become inputs. Sortedness is proved for consistent collations. For an inconsistent comparator ECMA-262 leaves the order implementation-defined, and the model returns its insertion-sort order.
- AddressTable.Slice: bounds are non-negative. The paginator never produces negative values, so `slice`'s negative-index rules are not modelled.
- Angular details beyond `required`, `minLength` and `pattern`: validator error objects and control status flags other than validity.
- `GetAddressRequest` is not modelled, because nothing uses it.
- `createAddress` being deterministic holds trivially, since it is a function. It has no separate lemma.
- `isGeneratingQrCode` and `countries` are modelled as plain fields.

## Findings

| source | as written | input that shows it | evidently intended | confidence | as-written member | corrected member |
|---|---|---|---|---|---|---|
| src/app/core/auth/auth-token.interceptor.ts:17 | `catchError` comes after `switchMap`, so it also catches an error from the forwarded request and calls `next(req)` a second time, with the original request | relative URL `/api/addresses`, a session with access token `t`, and a back end that rejects the request: two requests are sent, and the second has no Authorization header | only a failed session fetch falls back to the original request, so each call sends exactly one request | medium, not executed | AuthTokenInterceptor.SentAsWritten, AuthTokenInterceptor.RejectedRequestIsResentWithoutToken | AuthTokenInterceptor.Sent |
| src/app/features/address-map/components/address-dialog/address-form/address-form.component.ts:196-199 | the country subscription clears the state control with `emitEvent: false`, so the state subscription never runs and `selectedState` keeps the previous country's state code, which `availableCities` still uses | choose a country and a state with code `S`, then switch to a country that also has a state coded `S` (numeric subdivision codes such as `01` are shared by many countries): the state field is empty, yet the city list offers that state's cities | switching country empties the city list until a state of the new country is chosen | medium, not executed | AddressForm.AddressFormComponent.ChangeCountry, AddressForm.StaleStateListsCities | AddressForm.AddressFormComponent.ChangeCountryClearingState |
