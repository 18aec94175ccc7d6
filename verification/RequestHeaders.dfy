/** The headers of a webhook request (pkg/worker/webhook.go), set from a map in no particular order. */
module RequestHeaders {
  const CONTENT_TYPE := "Content-Type"
  const DEFAULT_TYPE := "application/json"

  /** Every stored header comes from a given one with that canonical name, every given one is present
      under its canonical name, and nothing else is. */
  ghost predicate HeadersFrom(h: map<string, string>, given: map<string, string>, canonical: string -> string) {
    && (forall k | k in given :: canonical(k) in h)
    && (forall c | c in h :: exists k :: k in given && canonical(k) == c && h[c] == given[k])
  }

  /** The headers sent: a content type is put in where there is none, or an empty one. */
  function WithType(base: map<string, string>): map<string, string> {
    if CONTENT_TYPE in base && base[CONTENT_TYPE] != "" then base else base[CONTENT_TYPE := DEFAULT_TYPE]
  }

  /** buildRequest's headers, set in any order of the map range; `canonical` is http.CanonicalHeaderKey. */
  method BuildHeaders(given: map<string, string>, canonical: string -> string) returns (h: map<string, string>)
    requires canonical(CONTENT_TYPE) == CONTENT_TYPE
    ensures CONTENT_TYPE in h && h[CONTENT_TYPE] != ""
    ensures exists base :: HeadersFrom(base, given, canonical) && h == WithType(base)
    ensures forall k | k in given :: canonical(k) in h
    ensures forall c | c in h && c != CONTENT_TYPE :: exists k :: k in given && canonical(k) == c && h[c] == given[k]
    ensures h[CONTENT_TYPE] == "application/json"
            || exists k :: k in given && canonical(k) == CONTENT_TYPE && h[CONTENT_TYPE] == given[k]
    ensures (exists k :: k in given && canonical(k) == CONTENT_TYPE)
            && (forall k | k in given && canonical(k) == CONTENT_TYPE :: given[k] != "") ==>
              exists k :: k in given && canonical(k) == CONTENT_TYPE && h[CONTENT_TYPE] == given[k]
  {
    h := map[];
    var pending := given.Keys;
    while pending != {}
      invariant pending <= given.Keys
      invariant forall k | k in given && k !in pending :: canonical(k) in h
      invariant forall c | c in h :: exists k :: k in given && canonical(k) == c && h[c] == given[k]
    {
      var key :| key in pending;
      h := h[canonical(key) := given[key]];
      pending := pending - {key};
    }
    assert HeadersFrom(h, given, canonical);
    if CONTENT_TYPE !in h || h[CONTENT_TYPE] == "" {
      h := h[CONTENT_TYPE := DEFAULT_TYPE];
    }
  }

  /** What is sent under the name `c` when the value set last is `v`. */
  function Sent(c: string, v: string): string {
    if c == CONTENT_TYPE && v == "" then DEFAULT_TYPE else v
  }

  /** Given names with one canonical form are sent with one value. */
  ghost predicate NamesAgree(given: map<string, string>, canonical: string -> string) {
    forall k, k' | k in given && k' in given && canonical(k) == canonical(k') ::
      Sent(canonical(k), given[k]) == Sent(canonical(k), given[k'])
  }

  /** The headers sent are the same for every order of the map range. */
  ghost predicate OrderIsIrrelevant(given: map<string, string>, canonical: string -> string) {
    forall h, h' | HeadersFrom(h, given, canonical) && HeadersFrom(h', given, canonical) :: WithType(h) == WithType(h')
  }

  /** Whatever the order, the same headers are sent, if and only if names of one form agree. */
  lemma HeadersAreDetermined(given: map<string, string>, canonical: string -> string)
    ensures OrderIsIrrelevant(given, canonical) <==> NamesAgree(given, canonical)
  {
    if NamesAgree(given, canonical) {
      forall h, h' | HeadersFrom(h, given, canonical) && HeadersFrom(h', given, canonical)
        ensures WithType(h) == WithType(h')
      {
        SameHeaders(h, h', given, canonical);
      }
    }
    if OrderIsIrrelevant(given, canonical) {
      forall k, k' | k in given && k' in given && canonical(k) == canonical(k')
        ensures Sent(canonical(k), given[k]) == Sent(canonical(k), given[k'])
      {
        TwoOrders(given, canonical, k, k');
      }
    }
  }

  lemma TwoOrders(given: map<string, string>, canonical: string -> string, k: string, k': string)
    requires OrderIsIrrelevant(given, canonical) && k in given && k' in given && canonical(k) == canonical(k')
    ensures Sent(canonical(k), given[k]) == Sent(canonical(k), given[k'])
  {
    var base := SomeHeaders(given, canonical);
    LastSetStays(base, given, canonical, k);
    LastSetStays(base, given, canonical, k');
  }

  /** Any given name may be the last of its canonical form to be set. */
  lemma LastSetStays(base: map<string, string>, given: map<string, string>, canonical: string -> string, k: string)
    requires HeadersFrom(base, given, canonical) && k in given
    ensures var h := base[canonical(k) := given[k]];
            && HeadersFrom(h, given, canonical)
            && canonical(k) in WithType(h) && WithType(h)[canonical(k)] == Sent(canonical(k), given[k])
  {
  }

  lemma SameHeaders(h: map<string, string>, h': map<string, string>, given: map<string, string>,
                    canonical: string -> string)
    requires HeadersFrom(h, given, canonical) && HeadersFrom(h', given, canonical) && NamesAgree(given, canonical)
    ensures WithType(h) == WithType(h')
  {
    HeadersIn(h, h', given, canonical);
    HeadersIn(h', h, given, canonical);
    SameSent(h, h');
  }

  lemma HeadersIn(h: map<string, string>, h': map<string, string>, given: map<string, string>,
                  canonical: string -> string)
    requires HeadersFrom(h, given, canonical) && HeadersFrom(h', given, canonical) && NamesAgree(given, canonical)
    ensures forall c | c in h :: c in h' && Sent(c, h[c]) == Sent(c, h'[c])
  {
    forall c | c in h
      ensures c in h' && Sent(c, h[c]) == Sent(c, h'[c])
    {
      var k :| k in given && canonical(k) == c && h[c] == given[k];
      assert c in h';
      var k' :| k' in given && canonical(k') == c && h'[c] == given[k'];
    }
  }

  lemma SameSent(h: map<string, string>, h': map<string, string>)
    requires h.Keys == h'.Keys && forall c | c in h :: Sent(c, h[c]) == Sent(c, h'[c])
    ensures WithType(h) == WithType(h')
  {
    assert WithType(h).Keys == WithType(h').Keys;
    forall c | c in WithType(h)
      ensures WithType(h)[c] == WithType(h')[c]
    {
      assert c in h ==> Sent(c, h[c]) == Sent(c, h'[c]);
    }
  }

  /** One possible outcome of setting the given headers. */
  ghost function SomeHeaders(given: map<string, string>, canonical: string -> string): (h: map<string, string>)
    ensures HeadersFrom(h, given, canonical)
  {
    var names := set k | k in given :: canonical(k);
    map c | c in names :: var k :| k in given && canonical(k) == c; given[k]
  }
}
