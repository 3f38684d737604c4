/** The address store: one list of addresses, seeded with the synthetic data
    and replaced as a whole by every operation. */
module AddressesService {
  import opened Wrappers
  import opened Seqs
  import opened Text
  import opened AddressModel
  import DefaultAddresses

  /** `{ ...request, id, createdAt }`: the stored record for a request. */
  function NewAddress(request: CreateAddressRequest, id: string, createdAt: Timestamp): (a: Address)
    ensures a.id == id && a.createdAt == createdAt
    ensures a.street == request.street && a.city == request.city
    ensures a.stateProvince == request.stateProvince && a.country == request.country
    ensures a.postalCode == request.postalCode
  {
    Address(id, request.street, request.city, request.stateProvince, request.country,
            request.postalCode, createdAt)
  }

  /** `{ ...addr, ...updates }`: every supplied property overwrites, every
      other one keeps its value; `id` and `createdAt` never change. */
  function Merge(a: Address, updates: AddressUpdate): (r: Address)
    ensures r.id == a.id && r.createdAt == a.createdAt
    ensures r.street == updates.street.GetOr(a.street)
    ensures r.city == updates.city.GetOr(a.city)
    ensures r.stateProvince == updates.stateProvince.GetOr(a.stateProvince)
    ensures r.country == updates.country.GetOr(a.country)
    ensures r.postalCode == updates.postalCode.GetOr(a.postalCode)
  {
    a.(street := updates.street.GetOr(a.street),
       city := updates.city.GetOr(a.city),
       stateProvince := updates.stateProvince.GetOr(a.stateProvince),
       country := updates.country.GetOr(a.country),
       postalCode := updates.postalCode.GetOr(a.postalCode))
  }

  /** `addresses.filter(addr => addr.id !== id)`. */
  function Removed(s: seq<Address>, id: string): (r: seq<Address>)
    ensures |r| <= |s|
    ensures forall a :: a in r <==> a in s && a.id != id
  {
    Filter(s, (a: Address) => a.id != id)
  }

  /** `addresses.map(addr => addr.id === id ? { ...addr, ...updates } : addr)`. */
  function Updated(s: seq<Address>, id: string, updates: AddressUpdate): (r: seq<Address>)
    ensures |r| == |s|
  {
    seq(|s|, i requires 0 <= i < |s| => if s[i].id == id then Merge(s[i], updates) else s[i])
  }

  function Ids(s: seq<Address>): (r: set<string>)
    ensures forall a :: a in s ==> a.id in r
  {
    set a | a in s :: a.id
  }

  ghost predicate IdsUnique(s: seq<Address>) {
    DistinctBy(s, (a: Address) => a.id)
  }

  /** The record appended by adding: the request's fields, the given id and time. */
  lemma AddAppendsOne(s: seq<Address>, request: CreateAddressRequest, id: string, now: Timestamp)
    ensures var r := s + [NewAddress(request, id, now)];
      |r| == |s| + 1 && r[..|s|] == s && r[|s|].id == id && r[|s|].createdAt == now
  {
    var r := s + [NewAddress(request, id, now)];
    assert r[..|s|] == s;
  }

  /** Adding a record whose id is fresh keeps the ids unique. */
  lemma AddKeepsIdsUnique(s: seq<Address>, a: Address)
    requires IdsUnique(s) && a.id !in Ids(s)
    ensures IdsUnique(s + [a])
  {
    var r := s + [a];
    forall i, j | 0 <= i < j < |r| ensures r[i].id != r[j].id {
      if j == |s| {
        assert r[i] in s;
      } else {
        assert r[i] == s[i] && r[j] == s[j];
      }
    }
  }

  /** Removing keeps exactly the records with another id, in their original
      relative order; an absent id leaves the list as it is. */
  lemma RemoveKeepsOthers(s: seq<Address>, id: string)
    ensures forall a :: a in Removed(s, id) <==> a in s && a.id != id
    ensures forall a :: multiset(Removed(s, id))[a] == if a.id != id then multiset(s)[a] else 0
    ensures Subsequence(Removed(s, id), s)
    ensures id !in Ids(s) ==> Removed(s, id) == s
  {
    FilterCounts(s, (a: Address) => a.id != id);
    FilterIsSubsequence(s, (a: Address) => a.id != id);
    if id !in Ids(s) {
      FilterKeepsAll(s, (a: Address) => a.id != id);
    }
  }

  lemma RemoveKeepsIdsUnique(s: seq<Address>, id: string)
    requires IdsUnique(s)
    ensures IdsUnique(Removed(s, id))
  {
    FilterDistinct(s, (a: Address) => a.id != id, (a: Address) => a.id);
  }

  /** Updating keeps the length, the order and every record's id and creation
      date; it rewrites exactly the records with the given id. */
  lemma UpdateTouchesOnlyMatches(s: seq<Address>, id: string, updates: AddressUpdate)
    ensures var r := Updated(s, id, updates);
      && |r| == |s|
      && (forall i :: 0 <= i < |s| ==> r[i].id == s[i].id && r[i].createdAt == s[i].createdAt)
      && (forall i :: 0 <= i < |s| && s[i].id != id ==> r[i] == s[i])
      && (forall i :: 0 <= i < |s| && s[i].id == id ==> r[i] == Merge(s[i], updates))
      && Ids(r) == Ids(s)
      && (IdsUnique(s) ==> IdsUnique(r))
  {
    var r := Updated(s, id, updates);
    forall x | x in Ids(s) ensures x in Ids(r) {
      var i :| 0 <= i < |s| && s[i].id == x;
      assert r[i] in r;
    }
  }

  /** A store operation, with the id and time an add draws from outside. */
  datatype StoreOp =
    | AddOp(request: CreateAddressRequest, id: string, createdAt: Timestamp)
    | RemoveOp(removedId: string)
    | UpdateOp(updatedId: string, updates: AddressUpdate)

  function Step(s: seq<Address>, op: StoreOp): (r: seq<Address>) {
    match op
    case AddOp(request, id, createdAt) => s + [NewAddress(request, id, createdAt)]
    case RemoveOp(id) => Removed(s, id)
    case UpdateOp(id, updates) => Updated(s, id, updates)
  }

  function Run(s: seq<Address>, ops: seq<StoreOp>): (r: seq<Address>)
    decreases |ops|
  {
    if ops == [] then s else Run(Step(s, ops[0]), ops[1..])
  }

  /** Every add in `ops` draws an id not present in the store at that moment. */
  ghost predicate FreshAdds(s: seq<Address>, ops: seq<StoreOp>)
    decreases |ops|
  {
    ops == [] || ((ops[0].AddOp? ==> ops[0].id !in Ids(s)) && FreshAdds(Step(s, ops[0]), ops[1..]))
  }

  /** Under any sequence of operations whose adds use fresh ids, ids stay unique. */
  lemma {:induction false} RunKeepsIdsUnique(s: seq<Address>, ops: seq<StoreOp>)
    requires IdsUnique(s) && FreshAdds(s, ops)
    ensures IdsUnique(Run(s, ops))
    decreases |ops|
  {
    if ops != [] {
      match ops[0] {
        case AddOp(request, id, createdAt) =>
          AddKeepsIdsUnique(s, NewAddress(request, id, createdAt));
        case RemoveOp(id) =>
          RemoveKeepsIdsUnique(s, id);
        case UpdateOp(id, updates) =>
          UpdateTouchesOnlyMatches(s, id, updates);
      }
      RunKeepsIdsUnique(Step(s, ops[0]), ops[1..]);
    }
  }

  /** Removing "5" from the seed leaves 19 addresses, none with id "5". */
  lemma RemoveFiveFromSeed()
    ensures |Removed(DefaultAddresses.Seed, "5")| == 19
    ensures forall a :: a in Removed(DefaultAddresses.Seed, "5") ==> a.id != "5"
  {
    var seed := DefaultAddresses.Seed;
    DefaultAddresses.SeedIdsDistinct();
    var hits := Filter(seed, (a: Address) => a.id == "5");
    FilterSplit(seed, (a: Address) => a.id != "5", (a: Address) => a.id == "5");
    DistinctByAtMostOne(seed, (a: Address) => a.id, (a: Address) => a.id == "5", "5");
    assert seed[4] == DefaultAddresses.CreateAddress(5);
    assert seed[4].id == NatToDecimal(5) == "5";
    assert seed[4] in hits;
  }

  class AddressStore {
    var addresses: seq<Address>

    /** The store starts with the seed data. */
    constructor ()
      ensures addresses == DefaultAddresses.Seed
    {
      addresses := DefaultAddresses.Seed;
    }

    /** `addAddress`: the id (`generateId`) and the current time (`new Date()`)
        are supplied by the caller. */
    method AddAddress(request: CreateAddressRequest, id: string, now: Timestamp)
      modifies this
      ensures addresses == old(addresses) + [NewAddress(request, id, now)]
    {
      addresses := addresses + [NewAddress(request, id, now)];
    }

    method RemoveAddress(id: string)
      modifies this
      ensures addresses == Removed(old(addresses), id)
    {
      addresses := Removed(addresses, id);
    }

    method UpdateAddress(id: string, updates: AddressUpdate)
      modifies this
      ensures addresses == Updated(old(addresses), id, updates)
    {
      addresses := Updated(addresses, id, updates);
    }
  }
}
