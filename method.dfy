/** `Method`: the HTTP method, a string wrapper with six named constants. */
module Methods {

  datatype Method = Method(rawValue: string)
  {
    /** `description`: the raw value itself. */
    function Description(): (r: string)
      ensures r == rawValue
    {
      rawValue
    }
  }

  const GET := Method("GET")
  const POST := Method("POST")
  const PUT := Method("PUT")
  const PATCH := Method("PATCH")
  const UPDATE := Method("UPDATE")
  const DELETE := Method("DELETE")

  /** `Method(rawValue:)` and the string-literal initialiser: the string is stored unchanged. */
  function Init(rawValue: string): (r: Method)
    ensures r.rawValue == rawValue
  {
    Method(rawValue)
  }

  /** Every method is the one its raw value initialises. */
  lemma InitRoundTrip(m: Method)
    ensures Init(m.rawValue) == m
  {
  }

  /** The six constants carry their own names and are pairwise distinct. */
  lemma Constants()
    ensures GET.rawValue == "GET" && POST.rawValue == "POST" && PUT.rawValue == "PUT"
    ensures PATCH.rawValue == "PATCH" && UPDATE.rawValue == "UPDATE" && DELETE.rawValue == "DELETE"
    ensures |{GET, POST, PUT, PATCH, UPDATE, DELETE}| == 6
  {
  }
}
