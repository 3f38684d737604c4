/** The records of the address book. */
module AddressModel {
  import opened Wrappers

  /** A `Date`, by its time value `getTime()`: milliseconds since the epoch. */
  type Timestamp = int

  /** A stored address. */
  datatype Address = Address(
    id: string,
    street: string,
    city: string,
    stateProvince: string,
    country: string,
    postalCode: string,
    createdAt: Timestamp)

  /** The payload for adding an address; `addressLine2` is optional. */
  datatype CreateAddressRequest = CreateAddressRequest(
    country: string,
    street: string,
    addressLine2: Option<string>,
    city: string,
    stateProvince: string,
    postalCode: string)

  /** `Partial<Omit<Address, 'id' | 'createdAt'>>`: each property may be
      absent (None); `id` and `createdAt` cannot be expressed at all. */
  datatype AddressUpdate = AddressUpdate(
    street: Option<string>,
    city: Option<string>,
    stateProvince: Option<string>,
    country: Option<string>,
    postalCode: Option<string>)
}
