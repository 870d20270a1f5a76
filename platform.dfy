/** The Foundation and CoreNFC services the session relies on but does not
    implement. Each is a parameter of the model, and the few facts the
    properties need about them are stated as predicates, taken as
    preconditions of the lemmas that need them. */
module Platform {
  import opened Ndef

  datatype Services = Services(
    /** `text.data(using: .utf8)` for a Swift string (never fails). */
    utf8Encode: string -> seq<byte>,
    /** `String(data:encoding: .utf8)`: None when the bytes are not UTF-8. */
    utf8Decode: seq<byte> -> Option<string>,
    /** `URL(string:)` followed by `NFCNDEFPayload.wellKnownTypeURIPayload(url:)`:
        the URI record for a URL string, with the identifier-code abbreviation of
        section 3.2.2 of the NFC Forum URI Record Type Definition. */
    uriRecord: string -> Option<Record>,
    /** `record.wellKnownTypeURIPayload()?.absoluteString`: the URL a record
        stands for, if it is a URI record. */
    recordUri: Record -> Option<string>)

  /** Decoding the UTF-8 encoding of `t` gives `t` back. This is a fact about
      one text, not a law for all: Foundation may treat a leading byte order
      mark specially. */
  ghost predicate Utf8RoundTrips(s: Services, t: string) {
    s.utf8Decode(s.utf8Encode(t)) == Some(t)
  }

  /** Only a record of type "U" is read as a URI. */
  ghost predicate UriNeedsUriType(s: Services) {
    forall r: Record :: r.typ != UriType ==> s.recordUri(r) == None
  }

  /** The URI record built for `u` is a well-known "U" record that reads back as `u`. */
  ghost predicate UriRoundTrips(s: Services, u: string) {
    && s.uriRecord(u).Some?
    && s.uriRecord(u).value.tnf == WellKnown
    && s.uriRecord(u).value.typ == UriType
    && s.recordUri(s.uriRecord(u).value) == Some(u)
  }
}
