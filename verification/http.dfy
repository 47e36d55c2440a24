/** The shape of a request the client issues; the transport itself is not modelled. */
module Http {
  datatype Verb = Get | Post | Put | Delete

  /** A request: its verb and its URL, which is either absolute (it starts
      with the configured API base) or a path that the HTTP client resolves
      against its own base. */
  datatype Request = Request(verb: Verb, url: string)
}
