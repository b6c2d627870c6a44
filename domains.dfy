/** The `DomainInfo` record the UI and the server actions pass around. */
module Domains {
  import opened Wrappers

  /** A tracked domain. Dates are millisecond timestamps; `None` is an Invalid Date
      (`new Date(NaN)`), the marker the list uses for a missing or unparsable date. */
  datatype Domain = Domain(id: string, name: string, expirationDate: Option<int>, dateAdded: Option<int>)

  /** What the add/edit dialog submits: a name and a (valid) expiration instant. */
  datatype DomainFormData = DomainFormData(name: string, expirationDate: int)
}
