/** `offset`: the `Query.offset` property, an `Int`-valued key. */
module Offsets {
  import opened Wrappers
  import Values
  import Queries
  import Text
  import Http
  import Requests
  import Endpoints

  /** The key, named "offset". */
  const Key := Queries.QueryKey("offset")

  /** The setter of `Query.offset`: the query gets the key's name and the integer. */
  function Set(q: Queries.Query, newValue: Option<Values.Int64>): (r: Queries.Query)
    ensures r.name == "offset"
    ensures newValue.None? <==> r.value.None?
    ensures newValue.Some? ==> r.value == Some(Values.Integer(newValue.value))
  {
    q.Set(Key, match newValue case None => None case Some(n) => Some(Values.Integer(n)))
  }

  /** The getter of `Query.offset`: always nil. */
  function Get(q: Queries.Query): (r: Option<Values.Int64>)
    ensures r.None?
  {
    match q.Get(Key)
    case None => None
    case Some(_) => None
  }

  /** Reading the property right after setting it still yields nil. */
  lemma GetAfterSet(q: Queries.Query, n: Option<Values.Int64>)
    ensures Get(Set(q, n)) == None
  {
  }

  /** The value set through the property renders as the decimal text of the integer,
      which reads back as the same integer. */
  lemma SetRendersDecimal(q: Queries.Query, n: Values.Int64)
    ensures Set(q, Some(n)).value.Some?
    ensures Text.ParseInt(Set(q, Some(n)).value.value.Description()) == Some(n as int)
  {
    Values.IntegerDescriptionParses(n);
  }

  /** Setting `offset = nil` leaves a query without a value, which assembly leaves out:
      the assembled request is the one without that query. */
  lemma NilOffsetOmitted(r: Requests.Request, q: Queries.Query, baseUrl: Http.BaseUrl, formable: Http.Url -> bool, selfText: string)
    ensures Set(q, None).name == "offset"
    ensures Endpoints.Assembled(r.(queries := r.queries + [Set(q, None)]), baseUrl, formable, selfText)
         == Endpoints.Assembled(r, baseUrl, formable, selfText)
  {
    Endpoints.NilQueryNeverEmitted(r, Set(q, None), baseUrl, formable, selfText);
  }
}
