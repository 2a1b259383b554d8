/** String helpers: joining with a separator, decimal rendering of integers
    (Swift's `Int.description`) and substring occurrence. */
module Text {
  import opened Wrappers

  /** `parts.joined(separator: sep)`. */
  function Join(parts: seq<string>, sep: string): string {
    if parts == [] then ""
    else if |parts| == 1 then parts[0]
    else parts[0] + sep + Join(parts[1..], sep)
  }

  /** How Swift's string interpolation writes an array: the elements' renderings
      between brackets, separated by a comma and a space. */
  function ArrayDescription(items: seq<string>): (r: string)
    ensures |r| >= 2 && r[0] == '[' && r[|r| - 1] == ']'
    ensures items == [] ==> r == "[]"
  {
    "[" + Join(items, ", ") + "]"
  }

  /** Every element's rendering occurs in the rendering of the array. */
  lemma ArrayDescriptionContains(items: seq<string>, i: nat)
    requires i < |items|
    ensures Occurs(items[i], ArrayDescription(items))
  {
    JoinContainsPart(items, ", ", i);
    OccursAfter(items[i], "[", Join(items, ", "));
    OccursBefore(items[i], "[" + Join(items, ", "), "]");
  }

  /** Every element's rendering occurs in the rendering of the array, for all elements at once. */
  lemma ArrayDescriptionContainsAll(items: seq<string>)
    ensures forall i :: 0 <= i < |items| ==> Occurs(items[i], ArrayDescription(items))
  {
    forall i | 0 <= i < |items| ensures Occurs(items[i], ArrayDescription(items)) {
      ArrayDescriptionContains(items, i);
    }
  }

  /** `needle` appears somewhere inside `hay`. */
  ghost predicate Occurs(needle: string, hay: string) {
    exists k :: OccursAt(needle, hay, k)
  }

  /** `needle` appears in `hay` starting at index `k`. */
  predicate OccursAt(needle: string, hay: string, k: int) {
    0 <= k <= |hay| - |needle| && hay[k..k + |needle|] == needle
  }

  lemma OccursAtStart(needle: string, rest: string)
    ensures Occurs(needle, needle + rest)
  {
    assert OccursAt(needle, needle + rest, 0);
  }

  lemma OccursAfter(needle: string, front: string, hay: string)
    requires Occurs(needle, hay)
    ensures Occurs(needle, front + hay)
  {
    var k :| OccursAt(needle, hay, k);
    assert (front + hay)[|front| + k..|front| + k + |needle|] == needle;
    assert OccursAt(needle, front + hay, |front| + k);
  }

  lemma OccursBefore(needle: string, hay: string, back: string)
    requires Occurs(needle, hay)
    ensures Occurs(needle, hay + back)
  {
    var k :| OccursAt(needle, hay, k);
    assert (hay + back)[k..k + |needle|] == needle;
    assert OccursAt(needle, hay + back, k);
  }

  /** Every part of a joined string occurs in it. */
  lemma {:induction false} JoinContainsPart(parts: seq<string>, sep: string, i: nat)
    requires i < |parts|
    ensures Occurs(parts[i], Join(parts, sep))
  {
    if |parts| == 1 {
      OccursAtStart(parts[0], "");
      assert parts[0] + "" == parts[0];
    } else if i == 0 {
      OccursAtStart(parts[0], sep + Join(parts[1..], sep));
      assert parts[0] + sep + Join(parts[1..], sep) == parts[0] + (sep + Join(parts[1..], sep));
    } else {
      JoinContainsPart(parts[1..], sep, i - 1);
      OccursAfter(parts[i], parts[0] + sep, Join(parts[1..], sep));
    }
  }

  /** A needle longer than the haystack does not occur in it. */
  lemma TooLongNeverOccurs(needle: string, hay: string)
    requires |needle| > |hay|
    ensures !Occurs(needle, hay)
  {
  }

  function DigitChar(d: nat): (c: char)
    requires d < 10
    ensures '0' <= c <= '9'
  {
    (48 + d) as char
  }

  function DigitValue(c: char): (d: nat)
    requires '0' <= c <= '9'
    ensures d < 10
  {
    c as int - 48
  }

  predicate IsDigits(s: string) {
    forall i :: 0 <= i < |s| ==> '0' <= s[i] <= '9'
  }

  /** Decimal digits of a natural number, most significant first, without leading zeros. */
  function NatToString(n: nat): (r: string)
    ensures |r| >= 1 && IsDigits(r)
    ensures |r| > 1 ==> r[0] != '0'
    decreases n
  {
    if n < 10 then [DigitChar(n)] else NatToString(n / 10) + [DigitChar(n % 10)]
  }

  /** Swift's `Int.description`: an optional minus sign followed by the decimal digits. */
  function IntToString(i: int): (r: string)
    ensures |r| >= 1
    ensures i < 0 <==> r[0] == '-'
  {
    if i < 0 then "-" + NatToString(-i) else NatToString(i)
  }

  /** The value of a string of decimal digits. */
  function DigitsValue(s: string): (n: nat)
    requires IsDigits(s)
    decreases |s|
  {
    if s == [] then 0 else DigitsValue(s[..|s| - 1]) * 10 + DigitValue(s[|s| - 1])
  }

  /** The inverse of `IntToString`: an optional minus sign and at least one digit. */
  function ParseInt(s: string): (r: Option<int>)
    ensures r.Some? ==> |s| >= 1
  {
    if |s| >= 2 && s[0] == '-' && IsDigits(s[1..]) then Some(0 - DigitsValue(s[1..]))
    else if |s| >= 1 && IsDigits(s) then Some(DigitsValue(s))
    else None
  }

  lemma {:induction false} NatRoundTrip(n: nat)
    ensures DigitsValue(NatToString(n)) == n
    decreases n
  {
    if n >= 10 {
      NatRoundTrip(n / 10);
      var s := NatToString(n);
      assert s[..|s| - 1] == NatToString(n / 10);
    }
  }

  /** Rendering an integer and parsing it back yields the integer. */
  lemma IntRoundTrip(i: int)
    ensures ParseInt(IntToString(i)) == Some(i)
  {
    if i < 0 {
      NatRoundTrip(-i);
      assert IntToString(i)[1..] == NatToString(-i);
    } else {
      NatRoundTrip(i);
    }
  }

  /** Distinct integers render differently. */
  lemma IntToStringInjective(i: int, j: int)
    requires IntToString(i) == IntToString(j)
    ensures i == j
  {
    IntRoundTrip(i);
    IntRoundTrip(j);
  }
}
