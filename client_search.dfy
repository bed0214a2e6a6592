/**
 * controller/ClientSearchController.java: `filterClients`, four text fields
 * (name, email, phone, company) applied one after the other to all clients,
 * each as a case-insensitive substring test on its own attribute; an empty
 * field applies no restriction, and no field is trimmed.
 */
module ClientSearch {
  import opened JavaLang
  import opened Streams
  import opened Clients

  datatype ClientField = Name | Email | Phone | Company

  function FieldOf(c: Client, f: ClientField): string
  {
    match f
    case Name => c.name
    case Email => c.email
    case Phone => c.phone
    case Company => c.company
  }

  /** The four search fields as typed. */
  datatype ClientQuery = ClientQuery(name: string, email: string, phone: string, company: string)

  /** The stream filter of one non-empty field. */
  function FieldFilter(f: ClientField, query: string): Client -> bool
  {
    c => ContainsIgnoringCase(FieldOf(c, f), query)
  }

  /** What a client must satisfy for one field: the field is empty, or its attribute contains it ignoring case. */
  predicate FieldMatches(c: Client, f: ClientField, query: string)
  {
    query == [] || ContainsIgnoringCase(FieldOf(c, f), query)
  }

  /** One step of filterClients: a non-empty field narrows the list, an empty one leaves it as it is. */
  function NarrowBy(list: seq<Client>, f: ClientField, query: string): (r: seq<Client>)
    ensures forall c :: c in r <==> c in list && FieldMatches(c, f, query)
  {
    if query == [] then list else Filter(list, FieldFilter(f, query))
  }

  /** All four fields at once. */
  predicate Matches(q: ClientQuery, c: Client)
  {
    FieldMatches(c, Name, q.name) && FieldMatches(c, Email, q.email)
    && FieldMatches(c, Phone, q.phone) && FieldMatches(c, Company, q.company)
  }

  function MatchFilter(q: ClientQuery): Client -> bool
  {
    c => Matches(q, c)
  }

  /** filterClients over the result of `findAll()`. */
  function FilterClients(all: seq<Client>, q: ClientQuery): (r: seq<Client>)
    ensures forall c :: c in r <==> c in all && Matches(q, c)
  {
    var byName := NarrowBy(all, Name, q.name);
    var byEmail := NarrowBy(byName, Email, q.email);
    var byPhone := NarrowBy(byEmail, Phone, q.phone);
    NarrowBy(byPhone, Company, q.company)
  }

  /**
   * The emptiness check changes nothing: an empty text is contained in every
   * attribute, so each step is the same filter whether or not its field is empty.
   */
  lemma NarrowIsFilter(list: seq<Client>, f: ClientField, query: string)
    ensures NarrowBy(list, f, query) == Filter(list, FieldFilter(f, query))
  {
    if query == [] {
      forall c | c in list
        ensures FieldFilter(f, query)(c)
      {
        ContainsEmpty(FieldOf(c, f));
      }
      FilterKeepsAll(list, FieldFilter(f, query));
    }
  }

  /**
   * The search is one filter on the conjunction of the four criteria over all
   * clients: an order-preserving subsequence of `findAll()`.
   */
  lemma FilterClientsIsOneFilter(all: seq<Client>, q: ClientQuery)
    ensures FilterClients(all, q) == Filter(all, MatchFilter(q))
    ensures IsSubsequence(FilterClients(all, q), all)
  {
    var byName, byEmail, byPhone, byCompany :=
      FieldFilter(Name, q.name), FieldFilter(Email, q.email), FieldFilter(Phone, q.phone), FieldFilter(Company, q.company);
    NarrowIsFilter(all, Name, q.name);
    var s1 := Filter(all, byName);
    NarrowIsFilter(s1, Email, q.email);
    FilterFilter(all, byName, byEmail);
    var s2 := Filter(all, Both(byName, byEmail));
    NarrowIsFilter(s2, Phone, q.phone);
    FilterFilter(all, Both(byName, byEmail), byPhone);
    var s3 := Filter(all, Both(Both(byName, byEmail), byPhone));
    NarrowIsFilter(s3, Company, q.company);
    FilterFilter(all, Both(Both(byName, byEmail), byPhone), byCompany);
    forall c | c in all
      ensures Both(Both(Both(byName, byEmail), byPhone), byCompany)(c) == MatchFilter(q)(c)
    {
      ContainsEmpty(c.name);
      ContainsEmpty(c.email);
      ContainsEmpty(c.phone);
      ContainsEmpty(c.company);
    }
    FilterAgree(all, Both(Both(Both(byName, byEmail), byPhone), byCompany), MatchFilter(q));
    FilterIsSubsequence(all, MatchFilter(q));
  }

  /** With all four fields empty the search shows every client, in order. */
  lemma EmptySearchShowsAll(all: seq<Client>)
    ensures FilterClients(all, ClientQuery("", "", "", "")) == all
  {
    FilterClientsIsOneFilter(all, ClientQuery("", "", "", ""));
    FilterKeepsAll(all, MatchFilter(ClientQuery("", "", "", "")));
  }
}
