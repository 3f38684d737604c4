/** The synthetic seed data the store starts with: twenty addresses that
    cycle through ten street names and ten city rows. */
module DefaultAddresses {
  import opened AddressModel
  import opened Text
  import opened Seqs

  datatype CityInfo = CityInfo(city: string, stateProvince: string, postalCode: string, country: string)

  const Streets: seq<string> :=
    ["Main", "Oak", "Pine", "Maple", "Cedar", "Elm", "Birch", "Willow", "Chestnut", "Walnut"]

  const CityCatalog: seq<CityInfo> := [
    CityInfo("New York", "NY", "10001", "USA"),
    CityInfo("Los Angeles", "CA", "90001", "USA"),
    CityInfo("Chicago", "IL", "60601", "USA"),
    CityInfo("Houston", "TX", "77001", "USA"),
    CityInfo("Phoenix", "AZ", "85001", "USA"),
    CityInfo("Toronto", "ON", "M5H", "Canada"),
    CityInfo("Vancouver", "BC", "V5K", "Canada"),
    CityInfo("London", "ENG", "SW1A", "UK"),
    CityInfo("Berlin", "BE", "10115", "Germany"),
    CityInfo("Paris", "IDF", "75001", "France")
  ]

  const MsPerDay: int := 86_400_000

  /** Midnight at the start of 1 January 2024, with the local time zone taken as UTC. */
  const January1st2024: Timestamp := 1_704_067_200_000

  /** `new Date(2024, 0, day)` for a day of January. */
  function January2024(day: int): (t: Timestamp)
    requires 1 <= day <= 31
  {
    January1st2024 + (day - 1) * MsPerDay
  }

  /** `createAddress(id)`. */
  function CreateAddress(id: nat): (a: Address) {
    var cityInfo := CityCatalog[id % |CityCatalog|];
    var streetName := Streets[id % |Streets|];
    var streetNumber := 100 + id;
    Address(
      NatToDecimal(id),
      NatToDecimal(streetNumber) + " " + streetName + " Street",
      cityInfo.city,
      cityInfo.stateProvince,
      cityInfo.country,
      cityInfo.postalCode,
      January2024(1 + id % 28))
  }

  /** The id is the decimal numeral of the number it was created from. */
  lemma CreateAddressId(id: nat)
    ensures var a := CreateAddress(id);
      (forall k :: 0 <= k < |a.id| ==> IsDigit(a.id[k])) && DecimalValue(a.id) == id
  {
    DecimalRoundTrip(id);
  }

  /** The street is house number 100 + id on one of the ten street names. */
  lemma CreateAddressStreet(id: nat)
    ensures exists name ::
              name in Streets && CreateAddress(id).street == NatToDecimal(100 + id) + " " + name + " Street"
  {
    assert Streets[id % 10] in Streets;
  }

  /** City, state, postal code and country are all taken from one catalog row. */
  lemma CreateAddressCatalogRow(id: nat)
    ensures var a := CreateAddress(id);
      CityInfo(a.city, a.stateProvince, a.postalCode, a.country) in CityCatalog
  {
    assert CityCatalog[id % 10] in CityCatalog;
  }

  /** The catalog row an address was filled from. */
  function CatalogRowOf(a: Address): (r: CityInfo) {
    CityInfo(a.city, a.stateProvince, a.postalCode, a.country)
  }

  /** Ids `i` and `j` are given one street name: the street of each is its
      house number, a space, that name and " Street". */
  ghost predicate SharesStreetName(i: nat, j: nat) {
    exists name :: && name in Streets
                   && CreateAddress(i).street == NatToDecimal(100 + i) + " " + name + " Street"
                   && CreateAddress(j).street == NatToDecimal(100 + j) + " " + name + " Street"
  }

  lemma CatalogAndStreetsDistinct()
    ensures forall i, j :: 0 <= i < j < |CityCatalog| ==> CityCatalog[i] != CityCatalog[j]
    ensures forall i, j :: 0 <= i < j < |Streets| ==> Streets[i] != Streets[j]
  {
  }

  lemma MiddleCancels(p: string, x: string, y: string, q: string)
    requires p + x + q == p + y + q
    ensures x == y
  {
    assert |x| == |y|;
    assert x == (p + x + q)[|p|..|p| + |x|];
    assert y == (p + y + q)[|p|..|p| + |y|];
  }

  /** Two ids are filled from the same catalog row exactly when they agree modulo ten. */
  lemma CreateAddressSameRow(i: nat, j: nat)
    ensures CatalogRowOf(CreateAddress(i)) == CatalogRowOf(CreateAddress(j)) <==> i % 10 == j % 10
  {
    CatalogAndStreetsDistinct();
    assert CatalogRowOf(CreateAddress(i)) == CityCatalog[i % 10];
    assert CatalogRowOf(CreateAddress(j)) == CityCatalog[j % 10];
  }

  /** Two ids carry the same street name exactly when they agree modulo ten. */
  lemma CreateAddressSameStreetName(i: nat, j: nat)
    ensures SharesStreetName(i, j) <==> i % 10 == j % 10
  {
    CatalogAndStreetsDistinct();
    var ni, nj := Streets[i % 10], Streets[j % 10];
    assert CreateAddress(i).street == NatToDecimal(100 + i) + " " + ni + " Street";
    assert CreateAddress(j).street == NatToDecimal(100 + j) + " " + nj + " Street";
    if i % 10 == j % 10 {
      assert ni in Streets;
    }
    if SharesStreetName(i, j) {
      var name :| && name in Streets
                  && CreateAddress(i).street == NatToDecimal(100 + i) + " " + name + " Street"
                  && CreateAddress(j).street == NatToDecimal(100 + j) + " " + name + " Street";
      MiddleCancels(NatToDecimal(100 + i) + " ", name, ni, " Street");
      MiddleCancels(NatToDecimal(100 + j) + " ", name, nj, " Street");
    }
  }

  /** The lookup is cyclic: ids ten apart use the same catalog row and street
      name, with house numbers ten apart. */
  lemma CreateAddressCycles(id: nat)
    ensures var a, b := CreateAddress(id), CreateAddress(id + 10);
      && CityInfo(a.city, a.stateProvince, a.postalCode, a.country) == CityInfo(b.city, b.stateProvince, b.postalCode, b.country)
      && exists name :: && name in Streets && a.street == NatToDecimal(100 + id) + " " + name + " Street"
                        && b.street == NatToDecimal(110 + id) + " " + name + " Street"
  {
    assert (id + 10) % 10 == id % 10;
    var name := Streets[id % 10];
    assert name in Streets;
    assert CreateAddress(id + 10).street == NatToDecimal(110 + id) + " " + name + " Street";
  }

  /** The creation date is midnight of day 1 + id % 28 of January 2024. */
  lemma CreateAddressDate(id: nat)
    ensures var a := CreateAddress(id);
      && January1st2024 <= a.createdAt < January1st2024 + 28 * MsPerDay
      && (a.createdAt - January1st2024) % MsPerDay == 0
      && (a.createdAt - January1st2024) / MsPerDay == id % 28
  {
    var day := 1 + id % 28;
    assert CreateAddress(id).createdAt - January1st2024 == (day - 1) * MsPerDay;
  }

  /** `DEFAULT_ADDRESSES`: `createAddress(1)` .. `createAddress(20)`. */
  const Seed: seq<Address> := seq(20, i requires 0 <= i < 20 => CreateAddress(i + 1))

  /** Twenty entries, the i-th (from 0) with id `String(i + 1)`. */
  lemma SeedIds()
    ensures |Seed| == 20
    ensures forall i :: 0 <= i < 20 ==> Seed[i].id == NatToDecimal(i + 1) && DecimalValue(Seed[i].id) == i + 1
    ensures Seed[0].id == "1" && Seed[19].id == "20"
  {
    forall i | 0 <= i < 20 ensures Seed[i].id == NatToDecimal(i + 1) && DecimalValue(Seed[i].id) == i + 1 {
      assert Seed[i] == CreateAddress(i + 1);
      DecimalRoundTrip(i + 1);
    }
    assert Seed[0].id == NatToDecimal(1) == "1";
    assert Seed[19].id == NatToDecimal(20) == NatToDecimal(2) + [DigitChar(0)];
  }

  /** No two seed addresses share an id. */
  lemma SeedIdsDistinct()
    ensures DistinctBy(Seed, (a: Address) => a.id)
  {
    forall i, j | 0 <= i < j < |Seed| ensures Seed[i].id != Seed[j].id {
      if Seed[i].id == Seed[j].id {
        DecimalInjective(i + 1, j + 1);
      }
    }
  }

  /** Seed i (from 0) is dated 2 + i January 2024, so later ids are strictly younger. */
  lemma SeedCreatedAtIncreasing()
    ensures forall i :: 0 <= i < |Seed| ==> Seed[i].createdAt == January2024(2 + i)
    ensures forall i, j :: 0 <= i < j < |Seed| ==> Seed[i].createdAt < Seed[j].createdAt
  {
    forall i | 0 <= i < |Seed| ensures Seed[i].createdAt == January2024(2 + i) {
      assert (i + 1) % 28 == i + 1;
    }
  }
}
