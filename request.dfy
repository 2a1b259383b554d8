/** `Request`: the descriptor of one endpoint call, with its defaults, initialisers,
    copy-with-one-field-changed modifiers and its two renderings. */
module Requests {
  import opened Wrappers
  import Text
  import Seqs
  import Values
  import Http
  import Methods
  import Queries
  import Headers
  import ContentTypes
  import Accepts

  datatype Request = Request(
    httpMethod: Methods.Method,
    path: string,
    queries: seq<Queries.Query>,
    headers: seq<Headers.Header>,
    cachePolicy: Http.CachePolicy,
    timeout: real,
    allowsCellularAccess: bool,
    allowsExpensiveNetworkAccess: bool,
    allowsConstrainedNetworkAccess: bool)
  {
    /** `cachePolicy(_:)`: a copy that differs only in the cache policy. */
    function WithCachePolicy(policy: Http.CachePolicy): (r: Request)
      ensures r.cachePolicy == policy && r.(cachePolicy := cachePolicy) == this
    {
      this.(cachePolicy := policy)
    }

    /** `timeout(_:)`: a copy that differs only in the timeout. */
    function WithTimeout(t: real): (r: Request)
      ensures r.timeout == t && r.(timeout := timeout) == this
    {
      this.(timeout := t)
    }

    /** `allowsCellularAccess(_:)`: a copy that differs only in that flag. */
    function WithCellularAccess(allowed: bool): (r: Request)
      ensures r.allowsCellularAccess == allowed && r.(allowsCellularAccess := allowsCellularAccess) == this
    {
      this.(allowsCellularAccess := allowed)
    }

    /** `allowsExpensiveNetworkAccess(_:)`: a copy that differs only in that flag. */
    function WithExpensiveNetworkAccess(allowed: bool): (r: Request)
      ensures r.allowsExpensiveNetworkAccess == allowed
      ensures r.(allowsExpensiveNetworkAccess := allowsExpensiveNetworkAccess) == this
    {
      this.(allowsExpensiveNetworkAccess := allowed)
    }

    /** `allowsConstrainedNetworkAccess(_:)`: a copy that differs only in that flag. */
    function WithConstrainedNetworkAccess(allowed: bool): (r: Request)
      ensures r.allowsConstrainedNetworkAccess == allowed
      ensures r.(allowsConstrainedNetworkAccess := allowsConstrainedNetworkAccess) == this
    {
      this.(allowsConstrainedNetworkAccess := allowed)
    }

    /** The text both renderings start with: the method and the path after a slash. */
    function Head(): string {
      httpMethod.rawValue + " /" + path
    }

    /** `description`: the head, a question mark, then the queries as an array.
        `render` is how a `Query` is written by reflection. */
    function Description(render: Queries.Query -> string): (r: string)
      ensures |r| >= |Head()| + 3
      ensures r[..|Head()|] == Head() && r[|Head()|] == '?'
      ensures r[|Head()| + 1..] == Text.ArrayDescription(Seqs.Map(render, queries))
    {
      Head() + "?" + Text.ArrayDescription(Seqs.Map(render, queries))
    }

    /** `"\(queries)"`. */
    function QueriesArray(render: Queries.Query -> string): (r: string)
      ensures queries == [] ==> r == "[]"
      ensures forall i :: 0 <= i < |queries| ==> Text.Occurs(render(queries[i]), r)
    {
      Text.ArrayDescriptionContainsAll(Seqs.Map(render, queries));
      Text.ArrayDescription(Seqs.Map(render, queries))
    }

    /** `"\(headers)"`: a `Header` is written by its `description`. */
    function HeadersArray(): (r: string)
      ensures headers == [] ==> r == "[]"
      ensures forall i :: 0 <= i < |headers| ==> Text.Occurs(headers[i].Description(), r)
    {
      Text.ArrayDescriptionContainsAll(HeaderTexts(headers));
      Text.ArrayDescription(HeaderTexts(headers))
    }

    /** `debugDescription` as written: when only one of the collections is empty, that
        EMPTY one is printed; the per-entry listings it builds are never used. */
    function DebugDescriptionAsWritten(render: Queries.Query -> string): (r: string)
      ensures |r| >= |Head()| && r[..|Head()|] == Head()
      ensures |queries| == 0 && |headers| > 0 ==> r == Head() + "\n[]"
      ensures |queries| > 0 && |headers| == 0 ==> r == Head() + "\n[]"
      ensures |queries| == 0 && |headers| == 0 ==> r == Head()
      ensures |queries| > 0 && |headers| > 0 ==> r == Head() + "\n" + QueriesArray(render) + "\n" + HeadersArray()
    {
      if |queries| == 0 && |headers| == 0 then Head()
      else if |queries| == 0 then Head() + "\n" + QueriesArray(render)
      else if |headers| == 0 then Head() + "\n" + HeadersArray()
      else Head() + "\n" + QueriesArray(render) + "\n" + HeadersArray()
    }

    /** The listing of the queries, one per line after a tab. */
    function QueriesDescription(render: Queries.Query -> string): (r: string)
      ensures |r| >= 9 && r[..9] == "Queries:\n"
      ensures queries == [] ==> r == "Queries:\n"
    {
      "Queries:\n" + Text.Join(Seqs.Map((q: Queries.Query) => "\t" + render(q), queries), "\n")
    }

    /** The listing of the headers, one per line after a tab and a dash. */
    function HeadersDescription(): (r: string)
      ensures |r| >= 9 && r[..9] == "Headers:\n"
      ensures headers == [] ==> r == "Headers:\n"
    {
      "Headers:\n" + Text.Join(Seqs.Map((t: string) => "\t- " + t, HeaderTexts(headers)), "\n")
    }

    /** `debugDescription` as intended: the head, then the listing of every non-empty collection. */
    function DebugDescription(render: Queries.Query -> string): (r: string)
      ensures |queries| == 0 && |headers| == 0 ==> r == Head()
    {
      if |queries| == 0 && |headers| == 0 then Head()
      else if |queries| == 0 then Head() + "\n" + HeadersDescription()
      else if |headers| == 0 then Head() + "\n" + QueriesDescription(render)
      else Head() + "\n" + QueriesDescription(render) + "\n" + HeadersDescription()
    }
  }

  /** The headers' descriptions, in order. */
  function HeaderTexts(hs: seq<Headers.Header>): (r: seq<string>)
    ensures |r| == |hs| && forall i :: 0 <= i < |hs| ==> r[i] == hs[i].Description()
  {
    Seqs.Map((h: Headers.Header) => h.Description(), hs)
  }

  /** The default headers: Content-Type then Accept, both `application/json`, each made
      with the key-path initialiser. */
  function DefaultHeaders(): (r: seq<Headers.Header>)
    ensures |r| == 2
    ensures r[0].name == "Content-Type" && r[0].value == Some(ContentTypes.Json.AsValue())
    ensures r[1].name == "Accept" && r[1].value == Some(Accepts.Json.AsValue())
  {
    [ Headers.InitKeyPath(Headers.ToKey(ContentTypes.Key, Some(ContentTypes.Json.AsValue()))),
      Headers.InitKeyPath(Headers.ToKey(Accepts.Key, Some(Accepts.Json.AsValue()))) ]
  }

  /** `init(_:path:)`: every other field takes its stored default. */
  function Init(m: Methods.Method, path: string): (r: Request)
    ensures r.httpMethod == m && r.path == path
    ensures r.queries == [] && r.headers == DefaultHeaders()
    ensures r.cachePolicy == Http.UseProtocolCachePolicy && r.timeout == 60.0
    ensures r.allowsCellularAccess && r.allowsExpensiveNetworkAccess && r.allowsConstrainedNetworkAccess
  {
    Request(m, path, [], DefaultHeaders(), Http.UseProtocolCachePolicy, 60.0, true, true, true)
  }

  /** `init(_:path:queries:)`: the built queries, the default headers. */
  function InitQueries(m: Methods.Method, path: string, queries: seq<Queries.Query>): (r: Request)
    ensures r == Init(m, path).(queries := queries)
    ensures r.headers == DefaultHeaders()
  {
    Init(m, path).(queries := queries)
  }

  /** `init(_:path:headers:)`: the built headers REPLACE the default ones. */
  function InitHeaders(m: Methods.Method, path: string, headers: seq<Headers.Header>): (r: Request)
    ensures r == Init(m, path).(headers := headers)
    ensures r.queries == []
  {
    Init(m, path).(headers := headers)
  }

  /** `init(_:path:queries:headers:)`. */
  function InitBoth(m: Methods.Method, path: string, queries: seq<Queries.Query>, headers: seq<Headers.Header>): (r: Request)
    ensures r == Init(m, path).(queries := queries, headers := headers)
  {
    Request(m, path, queries, headers, Http.UseProtocolCachePolicy, 60.0, true, true, true)
  }

  /** With an empty header block, the headers initialiser leaves no default header behind. */
  lemma EmptyHeaderBlockDropsDefaults(m: Methods.Method, path: string)
    ensures InitHeaders(m, path, []).headers == []
    ensures Init(m, path).headers != []
  {
  }

  /** Applying a modifier twice is applying it once with the last argument; repeating
      the same argument changes nothing. */
  lemma ModifiersLastWins(r: Request, p1: Http.CachePolicy, p2: Http.CachePolicy, t1: real, t2: real, b1: bool, b2: bool)
    ensures r.WithCachePolicy(p1).WithCachePolicy(p2) == r.WithCachePolicy(p2)
    ensures r.WithTimeout(t1).WithTimeout(t2) == r.WithTimeout(t2)
    ensures r.WithCellularAccess(b1).WithCellularAccess(b2) == r.WithCellularAccess(b2)
    ensures r.WithExpensiveNetworkAccess(b1).WithExpensiveNetworkAccess(b2) == r.WithExpensiveNetworkAccess(b2)
    ensures r.WithConstrainedNetworkAccess(b1).WithConstrainedNetworkAccess(b2) == r.WithConstrainedNetworkAccess(b2)
    ensures r.WithTimeout(t1).WithTimeout(t1) == r.WithTimeout(t1)
  {
  }

  /** Setting a field to the value it already has returns the receiver itself. */
  lemma ModifiersFixpoint(r: Request)
    ensures r.WithCachePolicy(r.cachePolicy) == r && r.WithTimeout(r.timeout) == r
    ensures r.WithCellularAccess(r.allowsCellularAccess) == r
    ensures r.WithExpensiveNetworkAccess(r.allowsExpensiveNetworkAccess) == r
    ensures r.WithConstrainedNetworkAccess(r.allowsConstrainedNetworkAccess) == r
  {
  }

  /** The intended rendering lists every header's description when there are headers. */
  lemma DebugDescriptionListsHeaders(r: Request, render: Queries.Query -> string, i: nat)
    requires i < |r.headers|
    ensures Text.Occurs(r.headers[i].Description(), r.DebugDescription(render))
  {
    var texts := HeaderTexts(r.headers);
    var lines := Seqs.Map((t: string) => "\t- " + t, texts);
    var hd := r.HeadersDescription();
    var t := r.headers[i].Description();
    Text.JoinContainsPart(lines, "\n", i);
    assert lines[i] == "\t- " + t;
    Text.OccursAtStart(t, "");
    assert t + "" == t;
    Text.OccursAfter(t, "\t- ", t);
    OccursTransitive(t, lines[i], Text.Join(lines, "\n"));
    Text.OccursAfter(t, "Headers:\n", Text.Join(lines, "\n"));
    var pre := if |r.queries| == 0 then r.Head() + "\n" else r.Head() + "\n" + r.QueriesDescription(render) + "\n";
    Text.OccursAfter(t, pre, hd);
    assert r.DebugDescription(render) == pre + hd;
  }

  /** The intended rendering lists every query when there are queries. */
  lemma DebugDescriptionListsQueries(r: Request, render: Queries.Query -> string, i: nat)
    requires i < |r.queries|
    ensures Text.Occurs(render(r.queries[i]), r.DebugDescription(render))
  {
    var lines := Seqs.Map((q: Queries.Query) => "\t" + render(q), r.queries);
    var qd := r.QueriesDescription(render);
    var t := render(r.queries[i]);
    Text.JoinContainsPart(lines, "\n", i);
    assert lines[i] == "\t" + t;
    Text.OccursAtStart(t, "");
    assert t + "" == t;
    Text.OccursAfter(t, "\t", t);
    OccursTransitive(t, lines[i], Text.Join(lines, "\n"));
    Text.OccursAfter(t, "Queries:\n", Text.Join(lines, "\n"));
    Text.OccursAfter(t, r.Head() + "\n", qd);
    if |r.headers| == 0 {
      assert r.DebugDescription(render) == r.Head() + "\n" + qd;
    } else {
      Text.OccursBefore(t, r.Head() + "\n" + qd, "\n" + r.HeadersDescription());
      assert r.DebugDescription(render) == r.Head() + "\n" + qd + ("\n" + r.HeadersDescription());
    }
  }

  lemma OccursTransitive(a: string, b: string, c: string)
    requires Text.Occurs(a, b) && Text.Occurs(b, c)
    ensures Text.Occurs(a, c)
  {
    var i :| Text.OccursAt(a, b, i);
    var j :| Text.OccursAt(b, c, j);
    forall k | 0 <= k < |a| ensures c[j + i + k] == a[k] {
      assert c[j + i + k] == c[j..j + |b|][i + k] == b[i + k] == b[i..i + |a|][k];
    }
    assert c[j + i..j + i + |a|] == a;
    assert Text.OccursAt(a, c, j + i);
  }

  /** As written, a request with no queries and the default headers renders as the head
      and an empty array: none of its headers appears. */
  lemma DebugDescriptionAsWrittenHidesHeaders(render: Queries.Query -> string)
    ensures var r := Init(Methods.GET, "x");
      r.DebugDescriptionAsWritten(render) == "GET /x\n[]"
      && !Text.Occurs(r.headers[0].Description(), r.DebugDescriptionAsWritten(render))
  {
    var r := Init(Methods.GET, "x");
    assert Seqs.Map(render, r.queries) == [];
    Text.TooLongNeverOccurs(r.headers[0].Description(), "GET /x\n[]");
  }
}
