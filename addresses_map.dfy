/** The address list page: the searched and sorted view of the store, and
    removal on the user's request. */
module AddressesMap {
  import opened Wrappers
  import opened Seqs
  import opened Sorting
  import opened Text
  import opened AddressModel
  import AddressesService
  import DefaultAddresses

  datatype SortOrder = Newest | Oldest

  /** `(searchTerm || '').toLowerCase()`; a null term counts as empty. The
      term is not trimmed. */
  function SearchKey(searchTerm: Option<string>): (key: string)
    ensures key == "" <==> searchTerm == None || searchTerm == Some("")
  {
    Lower(searchTerm.GetOr(""))
  }

  /** The lower-cased key occurs in one of the five lower-cased text fields. */
  predicate Matches(a: Address, key: string) {
    || Includes(Lower(a.street), key)
    || Includes(Lower(a.city), key)
    || Includes(Lower(a.stateProvince), key)
    || Includes(Lower(a.country), key)
    || Includes(Lower(a.postalCode), key)
  }

  /** The filter stage: only a non-empty key filters; otherwise a copy of the list. */
  function Filtered(base: seq<Address>, key: string): (r: seq<Address>)
    ensures multiset(r) <= multiset(base)
  {
    if key != "" then Filter(base, (a: Address) => Matches(a, key)) else base
  }

  /** The comparator passed to `sort`. */
  function Compare(order: Option<SortOrder>, a: Address, b: Address): (r: int)
    ensures r == 0 <==> a.createdAt == b.createdAt
    ensures order == Some(Newest) ==> (r < 0 <==> a.createdAt > b.createdAt)
    ensures order != Some(Newest) ==> (r < 0 <==> a.createdAt < b.createdAt)
  {
    var diff := b.createdAt - a.createdAt;
    if order == Some(Newest) then diff else -diff
  }

  /** "`a` may stay before `b`": the comparator does not return a positive value. */
  function Precedes(order: Option<SortOrder>): (r: (Address, Address) -> bool)
    ensures forall a, b :: r(a, b) <==>
      if order == Some(Newest) then a.createdAt >= b.createdAt else a.createdAt <= b.createdAt
  {
    (a: Address, b: Address) => Compare(order, a, b) <= 0
  }

  /** `filteredAddresses`: the filter stage followed by the stable sort. */
  function FilteredAddresses(base: seq<Address>, searchTerm: Option<string>, order: Option<SortOrder>): (r: seq<Address>)
    ensures multiset(r) <= multiset(base)
  {
    SortBy(Filtered(base, SearchKey(searchTerm)), Precedes(order))
  }

  /** The records of `s` created at time `t`, in their order in `s`. */
  function WithCreatedAt(s: seq<Address>, t: Timestamp): (r: seq<Address>)
    ensures forall a :: a in r <==> a in s && a.createdAt == t
  {
    Filter(s, (a: Address) => a.createdAt == t)
  }

  lemma PrecedesIsTotalPreorder(order: Option<SortOrder>)
    ensures TotalPreorder(Precedes(order))
  {
  }

  /** With an empty or null term every record is kept: the view is a
      permutation of the whole list. */
  lemma EmptySearchKeepsAll(base: seq<Address>, searchTerm: Option<string>, order: Option<SortOrder>)
    requires searchTerm == None || searchTerm == Some("")
    ensures multiset(FilteredAddresses(base, searchTerm, order)) == multiset(base)
  {
  }

  /** With a non-empty term a record is in the view iff it is in the list and
      the lower-cased term occurs in one of its lower-cased fields. */
  lemma SearchKeepsExactlyMatches(base: seq<Address>, searchTerm: Option<string>, order: Option<SortOrder>)
    requires SearchKey(searchTerm) != ""
    ensures forall a :: a in FilteredAddresses(base, searchTerm, order) <==>
      a in base && Matches(a, SearchKey(searchTerm))
  {
    var key := SearchKey(searchTerm);
    var f := Filter(base, (a: Address) => Matches(a, key));
    var r := SortBy(f, Precedes(order));
    assert multiset(r) == multiset(f);
    forall a ensures a in r <==> a in f {
      assert a in r <==> a in multiset(r);
      assert a in f <==> a in multiset(f);
    }
  }

  /** With a non-empty term the view holds the matching records of the list,
      each with as many copies as the list has, and nothing else. */
  lemma SearchKeepsEveryCopy(base: seq<Address>, searchTerm: Option<string>, order: Option<SortOrder>)
    requires SearchKey(searchTerm) != ""
    ensures multiset(FilteredAddresses(base, searchTerm, order)) ==
      multiset(Filter(base, (a: Address) => Matches(a, SearchKey(searchTerm))))
    ensures forall a ::
      multiset(FilteredAddresses(base, searchTerm, order))[a] == if Matches(a, SearchKey(searchTerm)) then multiset(base)[a] else 0
  {
    FilterCounts(base, (a: Address) => Matches(a, SearchKey(searchTerm)));
  }

  /** The view never holds a record the store does not, nor more copies of it. */
  lemma ViewIsSubMultiset(base: seq<Address>, searchTerm: Option<string>, order: Option<SortOrder>)
    ensures multiset(FilteredAddresses(base, searchTerm, order)) <= multiset(base)
  {
  }

  /** 'newest' sorts by descending creation time. */
  lemma NewestIsDescending(base: seq<Address>, searchTerm: Option<string>)
    ensures var r := FilteredAddresses(base, searchTerm, Some(Newest));
      forall i, j :: 0 <= i < j < |r| ==> r[i].createdAt >= r[j].createdAt
  {
    PrecedesIsTotalPreorder(Some(Newest));
    SortBySorted(Filtered(base, SearchKey(searchTerm)), Precedes(Some(Newest)));
  }

  /** Every other order, null included, sorts by ascending creation time. */
  lemma OtherwiseAscending(base: seq<Address>, searchTerm: Option<string>, order: Option<SortOrder>)
    requires order != Some(Newest)
    ensures var r := FilteredAddresses(base, searchTerm, order);
      forall i, j :: 0 <= i < j < |r| ==> r[i].createdAt <= r[j].createdAt
  {
    PrecedesIsTotalPreorder(order);
    SortBySorted(Filtered(base, SearchKey(searchTerm)), Precedes(order));
  }

  /** The classes of equals of the comparator are the records of one creation time. */
  lemma {:induction false} EquivalentsAreSameTime(s: seq<Address>, order: Option<SortOrder>, x: Address)
    ensures Equivalents(s, Precedes(order), x) == WithCreatedAt(s, x.createdAt)
  {
    if s != [] {
      EquivalentsAreSameTime(s[1..], order, x);
    }
  }

  /** Sorting keeps the relative order of records created at the same time. */
  lemma TiesKeepInputOrderOf(f: seq<Address>, order: Option<SortOrder>, t: Timestamp)
    ensures WithCreatedAt(SortBy(f, Precedes(order)), t) == WithCreatedAt(f, t)
  {
    var x := Address("", "", "", "", "", "", t);
    PrecedesIsTotalPreorder(order);
    SortByStable(f, Precedes(order), x);
    EquivalentsAreSameTime(f, order, x);
    EquivalentsAreSameTime(SortBy(f, Precedes(order)), order, x);
  }

  /** Records created at the same time keep their relative order from the filter stage. */
  lemma TiesKeepInputOrder(base: seq<Address>, searchTerm: Option<string>, order: Option<SortOrder>, t: Timestamp)
    ensures WithCreatedAt(FilteredAddresses(base, searchTerm, order), t)
         == WithCreatedAt(Filtered(base, SearchKey(searchTerm)), t)
  {
    TiesKeepInputOrderOf(Filtered(base, SearchKey(searchTerm)), order, t);
  }

  lemma WithCreatedAtReverse(s: seq<Address>, t: Timestamp)
    ensures WithCreatedAt(Reverse(s), t) == Reverse(WithCreatedAt(s, t))
  {
    FilterReverse(s, (a: Address) => a.createdAt == t);
  }

  /** Reversing a list sorted oldest-first gives one sorted newest-first. */
  lemma ReversedOldestIsNewestSorted(o: seq<Address>)
    requires SortedBy(o, Precedes(Some(Oldest)))
    ensures SortedBy(Reverse(o), Precedes(Some(Newest)))
  {
    var b := Reverse(o);
    ReverseLength(o);
    forall i, j | 0 <= i < j < |b| ensures b[i].createdAt >= b[j].createdAt {
      ReverseAt(o, i);
      ReverseAt(o, j);
      assert Precedes(Some(Oldest))(o[|o| - 1 - j], o[|o| - 1 - i]);
    }
  }

  /** With distinct creation times, each class of equals is the same in the
      newest-first list and in the reversed oldest-first list. */
  lemma ReversedOldestSameClasses(f: seq<Address>, x: Address)
    requires DistinctBy(f, (a: Address) => a.createdAt)
    ensures Equivalents(SortBy(f, Precedes(Some(Newest))), Precedes(Some(Newest)), x)
         == Equivalents(Reverse(SortBy(f, Precedes(Some(Oldest)))), Precedes(Some(Newest)), x)
  {
    var t := x.createdAt;
    var n := SortBy(f, Precedes(Some(Newest)));
    var o := SortBy(f, Precedes(Some(Oldest)));
    var w := WithCreatedAt(f, t);
    DistinctByAtMostOne(f, (a: Address) => a.createdAt, (a: Address) => a.createdAt == t, t);
    assert |w| <= 1;
    assert Reverse(w) == w by {
      if w != [] {
        assert w[1..] == [];
      }
    }
    calc {
      Equivalents(n, Precedes(Some(Newest)), x);
      { EquivalentsAreSameTime(n, Some(Newest), x); }
      WithCreatedAt(n, t);
      { TiesKeepInputOrderOf(f, Some(Newest), t); }
      w;
      Reverse(w);
      { TiesKeepInputOrderOf(f, Some(Oldest), t); }
      Reverse(WithCreatedAt(o, t));
      { WithCreatedAtReverse(o, t); }
      WithCreatedAt(Reverse(o), t);
      { EquivalentsAreSameTime(Reverse(o), Some(Newest), x); }
      Equivalents(Reverse(o), Precedes(Some(Newest)), x);
    }
  }

  /** When no two records share a creation time, 'newest' is 'oldest' reversed. */
  lemma NewestIsReversedOldest(base: seq<Address>, searchTerm: Option<string>)
    requires DistinctBy(base, (a: Address) => a.createdAt)
    ensures FilteredAddresses(base, searchTerm, Some(Newest))
         == Reverse(FilteredAddresses(base, searchTerm, Some(Oldest)))
  {
    var f := Filtered(base, SearchKey(searchTerm));
    if SearchKey(searchTerm) != "" {
      FilterDistinct(base, (a: Address) => Matches(a, SearchKey(searchTerm)), (a: Address) => a.createdAt);
    }
    var newest := Precedes(Some(Newest));
    var a := SortBy(f, newest);
    var o := SortBy(f, Precedes(Some(Oldest)));
    PrecedesIsTotalPreorder(Some(Newest));
    PrecedesIsTotalPreorder(Some(Oldest));
    SortBySorted(f, newest);
    SortBySorted(f, Precedes(Some(Oldest)));
    ReversedOldestIsNewestSorted(o);
    forall x ensures Equivalents(a, newest, x) == Equivalents(Reverse(o), newest, x) {
      ReversedOldestSameClasses(f, x);
    }
    StableArrangementUnique(a, Reverse(o), newest);
  }

  lemma SeedTorontoMatches()
    ensures DefaultAddresses.Seed[4].city == "Toronto" && Matches(DefaultAddresses.Seed[4], "toronto")
  {
    var a := DefaultAddresses.Seed[4];
    assert a == DefaultAddresses.CreateAddress(5);
    assert Lower(a.city) == "toronto";
    assert OccursAt(Lower(a.city), "toronto", 0);
  }

  /** Searching the seed for "TORONTO" finds the Toronto address: the term is
      lower-cased like the fields. */
  lemma SearchFoldsCase()
    ensures exists a :: a in FilteredAddresses(DefaultAddresses.Seed, Some("TORONTO"), Some(Newest)) && a.city == "Toronto"
  {
    var a := DefaultAddresses.Seed[4];
    SeedTorontoMatches();
    assert SearchKey(Some("TORONTO")) == "toronto";
    SearchKeepsExactlyMatches(DefaultAddresses.Seed, Some("TORONTO"), Some(Newest));
    assert a in DefaultAddresses.Seed;
  }

  /** The component: the latest search term and sort order (after the input
      debouncing), and the shared store. */
  class AddressesMapComponent {
    const store: AddressesService.AddressStore
    var searchTerm: Option<string>
    var sortOrder: Option<SortOrder>

    constructor (store: AddressesService.AddressStore)
      ensures this.store == store && searchTerm == Some("") && sortOrder == Some(Newest)
    {
      this.store := store;
      searchTerm := Some("");
      sortOrder := Some(Newest);
    }

    /** The displayed list; a function of the state, so computing it changes nothing. */
    function View(): (r: seq<Address>)
      reads this, store
      ensures multiset(r) <= multiset(store.addresses)
    {
      FilteredAddresses(store.addresses, searchTerm, sortOrder)
    }

    method OnSearchChanged(term: Option<string>)
      modifies this
      ensures searchTerm == term && sortOrder == old(sortOrder)
    {
      searchTerm := term;
    }

    method OnSortChanged(order: Option<SortOrder>)
      modifies this
      ensures sortOrder == order && searchTerm == old(searchTerm)
    {
      sortOrder := order;
    }

    /** `onRemoveAddress`: delegates to the store. */
    method OnRemoveAddress(id: string)
      modifies store
      ensures store.addresses == AddressesService.Removed(old(store.addresses), id)
    {
      store.RemoveAddress(id);
    }
  }
}
