/** `Path`: the endpoint path, a string wrapper. */
module Paths {

  datatype Path = Path(rawValue: string)
  {
    /** `description`: the raw value itself. */
    function Description(): (r: string)
      ensures r == rawValue
    {
      rawValue
    }
  }

  /** `Path(rawValue:)` and the string-literal initialiser: the string is stored unchanged. */
  function Init(rawValue: string): (r: Path)
    ensures r.rawValue == rawValue
  {
    Path(rawValue)
  }

  /** Every path is the one its raw value initialises. */
  lemma InitRoundTrip(p: Path)
    ensures Init(p.rawValue) == p
  {
  }
}
