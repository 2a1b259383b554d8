/** The result builders `QueryBuilder` and `HeadersBuilder`: both flatten the
    contributions of a builder block, in declaration order, into one list. */
module ResultBuilder {
  import opened Wrappers

  /** One contribution to a block: a single element (a `Query` or `Header`), a list
      of them (an array, or the result of a nested block), or the empty marker
      (`EmptyQuery`, `EmptyHeader`). */
  datatype Part<T> = Single(item: T) | Many(items: seq<T>) | Empty

  /** `.queries` / `.headers` of a contribution. */
  function Items<T>(p: Part<T>): (r: seq<T>)
    ensures p.Single? ==> r == [p.item]
    ensures p.Many? ==> r == p.items
    ensures p.Empty? ==> r == []
  {
    match p
    case Single(x) => [x]
    case Many(xs) => xs
    case Empty => []
  }

  /** `components.flatMap { $0.queries }`. */
  function Flatten<T>(parts: seq<Part<T>>): seq<T>
    decreases |parts|
  {
    if parts == [] then [] else Items(parts[0]) + Flatten(parts[1..])
  }

  /** The sum of the lengths of the parts' element lists. */
  function TotalLength<T>(parts: seq<Part<T>>): nat
    decreases |parts|
  {
    if parts == [] then 0 else |Items(parts[0])| + TotalLength(parts[1..])
  }

  /** `buildBlock(_ components...)`. */
  function BuildBlock<T>(parts: seq<Part<T>>): (r: seq<T>)
    ensures |r| == TotalLength(parts)
  {
    FlattenLength(parts);
    Flatten(parts)
  }

  /** `buildOptional(_:)`: an absent branch contributes nothing. */
  function BuildOptional<T>(p: Option<Part<T>>): (r: seq<T>)
    ensures p.None? ==> r == []
    ensures p.Some? ==> r == Items(p.value)
  {
    match p
    case None => []
    case Some(c) => Items(c)
  }

  /** `buildEither(first:)`: the branch taken passes through unchanged. */
  function BuildEitherFirst<T>(p: Part<T>): (r: seq<T>)
    ensures r == Items(p)
  {
    Items(p)
  }

  /** `buildEither(second:)`: the branch taken passes through unchanged. */
  function BuildEitherSecond<T>(p: Part<T>): (r: seq<T>)
    ensures r == Items(p)
  {
    Items(p)
  }

  /** `buildLimitedAvailability(_:)`: passes the component through unchanged. */
  function BuildLimitedAvailability<T>(p: Part<T>): (r: seq<T>)
    ensures r == Items(p)
  {
    Items(p)
  }

  /** `buildArray(_:)`: the contributions of a loop, flattened in iteration order;
      it agrees with `buildBlock` on the same parts. */
  function BuildArray<T>(parts: seq<Part<T>>): (r: seq<T>)
    ensures r == BuildBlock(parts)
    ensures |r| == TotalLength(parts)
  {
    FlattenLength(parts);
    Flatten(parts)
  }

  lemma {:induction false} FlattenLength<T>(parts: seq<Part<T>>)
    ensures |Flatten(parts)| == TotalLength(parts)
    decreases |parts|
  {
    if parts != [] {
      FlattenLength(parts[1..]);
    }
  }

  /** Flattening distributes over concatenation of blocks: it is order-preserving and
      associative, so nesting blocks changes nothing. */
  lemma {:induction false} BlockAppend<T>(ps: seq<Part<T>>, qs: seq<Part<T>>)
    ensures BuildBlock(ps + qs) == BuildBlock(ps) + BuildBlock(qs)
    decreases |ps|
  {
    if ps != [] {
      assert (ps + qs)[1..] == ps[1..] + qs;
      BlockAppend(ps[1..], qs);
    } else {
      assert ps + qs == qs;
    }
  }

  /** A block of one part yields that part's elements. */
  lemma BlockSingle<T>(p: Part<T>)
    ensures BuildBlock([p]) == Items(p)
  {
    assert [p][1..] == [];
    assert Flatten([p]) == Items(p) + Flatten([p][1..]);
    assert Items(p) + [] == Items(p);
  }

  /** The empty marker is an identity wherever it stands in a block. */
  lemma EmptyIsIdentity<T>(ps: seq<Part<T>>, qs: seq<Part<T>>)
    ensures BuildBlock(ps + [Empty] + qs) == BuildBlock(ps + qs)
  {
    BlockAppend(ps + [Empty], qs);
    BlockAppend(ps, [Empty]);
    BlockSingle<T>(Empty);
    BlockAppend(ps, qs);
  }

  /** Nothing is deduplicated: every occurrence in every part is kept, so the multiset
      of the result is the sum of the parts' multisets. */
  lemma {:induction false} BlockKeepsDuplicates<T>(ps: seq<Part<T>>, qs: seq<Part<T>>)
    ensures multiset(BuildBlock(ps + qs)) == multiset(BuildBlock(ps)) + multiset(BuildBlock(qs))
  {
    BlockAppend(ps, qs);
  }

  /** An element is in the result exactly when it is in one of the parts. */
  lemma {:induction false} BlockMembership<T>(parts: seq<Part<T>>, x: T)
    ensures x in BuildBlock(parts) <==> exists i :: 0 <= i < |parts| && x in Items(parts[i])
    decreases |parts|
  {
    if parts != [] {
      BlockMembership(parts[1..], x);
      if x in Items(parts[0]) {
        assert 0 <= 0 < |parts| && x in Items(parts[0]);
      }
      if exists i :: 0 <= i < |parts| && x in Items(parts[i]) {
        var i :| 0 <= i < |parts| && x in Items(parts[i]);
        if i > 0 {
          assert x in Items(parts[1..][i - 1]);
        }
      }
      forall j | 0 <= j < |parts| - 1 && x in Items(parts[1..][j])
        ensures exists i :: 0 <= i < |parts| && x in Items(parts[i])
      {
        assert x in Items(parts[j + 1]);
      }
    }
  }
}
