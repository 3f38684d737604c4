/** The add-address dialog: it remembers the last address the form reported
    and adds the submitted one, or else that one, to the store. */
module AddressDialog {
  import opened Wrappers
  import opened AddressModel
  import AddressesService

  /** The address `onAddAddress` works on: the submitted one when given,
      otherwise the last one reported. */
  function Chosen(submitted: Option<CreateAddressRequest>, current: Option<CreateAddressRequest>): (r: Option<CreateAddressRequest>)
    ensures submitted.Some? ==> r == submitted
    ensures submitted.None? ==> r == current
    ensures r.None? <==> submitted.None? && current.None?
  {
    if submitted.Some? then submitted else current
  }

  /** The request handed to the store: five fields copied, line 2 dropped. */
  function Forwarded(a: CreateAddressRequest): (r: CreateAddressRequest)
    ensures r.addressLine2 == None
    ensures r.street == a.street && r.city == a.city && r.stateProvince == a.stateProvince
    ensures r.country == a.country && r.postalCode == a.postalCode
  {
    CreateAddressRequest(a.country, a.street, None, a.city, a.stateProvince, a.postalCode)
  }

  /** Dropping line 2 loses nothing the store keeps: the stored record is the
      one the full request would give. */
  lemma ForwardedStoresSameRecord(a: CreateAddressRequest, id: string, now: Timestamp)
    ensures AddressesService.NewAddress(Forwarded(a), id, now) == AddressesService.NewAddress(a, id, now)
  {
  }

  class AddressDialogComponent {
    const store: AddressesService.AddressStore
    var currentAddress: Option<CreateAddressRequest>

    constructor (store: AddressesService.AddressStore)
      ensures this.store == store && currentAddress == None
    {
      this.store := store;
      currentAddress := None;
    }

    /** `onAddressChanged`: the reported address replaces the remembered one. */
    method OnAddressChanged(a: CreateAddressRequest)
      modifies this
      ensures currentAddress == Some(a)
    {
      currentAddress := Some(a);
    }

    /** `onAddAddress`: with no address at all nothing happens; otherwise
        exactly one record is appended to the store, built from the five
        forwarded fields. The store's random id and the clock are parameters. */
    method OnAddAddress(submitted: Option<CreateAddressRequest>, id: string, now: Timestamp)
      modifies store
      ensures submitted.None? && currentAddress.None? ==> store.addresses == old(store.addresses)
      ensures submitted.Some? || currentAddress.Some? ==>
        store.addresses == old(store.addresses)
          + [AddressesService.NewAddress(Forwarded(Chosen(submitted, currentAddress).value), id, now)]
    {
      var address := Chosen(submitted, currentAddress);
      if address.None? {
        return;
      }
      store.AddAddress(Forwarded(address.value), id, now);
    }
  }
}
