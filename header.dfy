/** `Header`: a name and an optional value, set through typed keys, rendered as `name: value`. */
module Headers {
  import opened Wrappers
  import Values
  import Text

  /** A `HeaderKey` type: its static `name`. */
  datatype HeaderKey = HeaderKey(name: string)

  /** A writable key path of `Header` together with the value assigned through it. */
  datatype Assignment =
    | ToName(name: string)
    | ToValue(value: Option<Values.Value>)
    | ToKey(key: HeaderKey, keyed: Option<Values.Value>)

  datatype Header = Header(name: string, value: Option<Values.Value>)
  {
    /** The setter of `self[K.self]`: the name becomes the key's name and the value the new value. */
    function Set(key: HeaderKey, newValue: Option<Values.Value>): (r: Header)
      ensures r.name == key.name && r.value == newValue
    {
      Header(key.name, newValue)
    }

    /** The getter of `self[K.self]`: never reports a value, whatever the header holds. */
    function Get(key: HeaderKey): (r: Option<Values.Value>)
      ensures r.None?
    {
      None
    }

    /** `self[keyPath: path] = value`. */
    function Assign(a: Assignment): (r: Header)
      ensures a.ToName? ==> r == this.(name := a.name)
      ensures a.ToValue? ==> r == this.(value := a.value)
      ensures a.ToKey? ==> r == Header(a.key.name, a.keyed)
    {
      match a
      case ToName(n) => this.(name := n)
      case ToValue(v) => this.(value := v)
      case ToKey(k, v) => Set(k, v)
    }

    /** What is written after the colon: the value's description, or `<none>`. */
    function ValueText(): (r: string)
      ensures value.Some? ==> r == value.value.Description()
      ensures value.None? ==> r == "<none>"
    {
      match value
      case None => "<none>"
      case Some(v) => v.Description()
    }

    /** `description`: the name, a colon and a space, then the value text. */
    function Description(): (r: string)
      ensures |r| == |name| + 2 + |ValueText()|
      ensures r[..|name|] == name && r[|name|..|name| + 2] == ": " && r[|name| + 2..] == ValueText()
    {
      name + ": " + ValueText()
    }
  }

  /** The stored defaults of a `Header`: empty name, no value. */
  const Default := Header("", None)

  /** `Header(name:value:)`. */
  function Init(name: string, value: Option<Values.Value>): (r: Header)
    ensures r.name == name && r.value == value
  {
    Header(name, value)
  }

  /** `Header(name:value:)` for a `RawRepresentable` value: its raw value is stored, not the wrapper. */
  function InitRaw(name: string, rawValue: string): (r: Header)
    ensures r.name == name
    ensures r.value == Some(Values.Str(rawValue))
    ensures r.Description() == name + ": " + rawValue
  {
    Header(name, Some(Values.Str(rawValue)))
  }

  /** `Header(keyPath, value)`: the defaults with the one assignment applied. */
  function InitKeyPath(a: Assignment): (r: Header)
    ensures a.ToName? ==> r.name == a.name && r.value.None?
    ensures a.ToValue? ==> r.name == "" && r.value == a.value
    ensures a.ToKey? ==> r.name == a.key.name && r.value == a.keyed
  {
    Default.Assign(a)
  }

  /** Setting through a key forgets everything the header held before. */
  lemma SetForgetsReceiver(h1: Header, h2: Header, key: HeaderKey, v: Option<Values.Value>)
    ensures h1.Set(key, v) == h2.Set(key, v)
  {
  }

  /** The last of two keyed assignments wins. */
  lemma SetLastWins(h: Header, k1: HeaderKey, v1: Option<Values.Value>, k2: HeaderKey, v2: Option<Values.Value>)
    ensures h.Set(k1, v1).Set(k2, v2) == h.Set(k2, v2)
  {
  }

  /** Even right after a value is set through a key, reading that key yields nil. */
  lemma GetAfterSet(h: Header, key: HeaderKey, v: Option<Values.Value>)
    ensures h.Set(key, v).Get(key) == None
  {
  }

  /** The first colon of a description ends the name, when the name holds no colon. */
  lemma FirstColon(h: Header)
    requires ':' !in h.name
    ensures h.Description()[|h.name|] == ':'
    ensures forall i :: 0 <= i < |h.name| ==> h.Description()[i] != ':'
  {
    var d := h.Description();
    forall i | 0 <= i < |h.name| ensures d[i] != ':' {
      assert d[i] == d[..|h.name|][i] == h.name[i];
    }
    assert d[|h.name|] == d[|h.name|..|h.name| + 2][0];
  }

  /** A description determines the header's name and value text, for names without a colon. */
  lemma {:induction false} DescriptionDetermines(h1: Header, h2: Header)
    requires ':' !in h1.name && ':' !in h2.name
    requires h1.Description() == h2.Description()
    ensures h1.name == h2.name && h1.ValueText() == h2.ValueText()
  {
    var d := h1.Description();
    FirstColon(h1);
    FirstColon(h2);
    assert |h1.name| == |h2.name|;
    assert h1.name == d[..|h1.name|] == h2.name;
  }

  /** A nil value renders exactly like the text `<none>`: the description cannot tell them apart. */
  lemma NilRendersAsNoneText(name: string)
    ensures Header(name, None).Description() == Header(name, Some(Values.Str("<none>"))).Description()
  {
  }
}
