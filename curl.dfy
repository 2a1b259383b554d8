/** `Curl`: a cURL command line for a `URLRequest`, as debugging output. The header
    dictionary is walked in an order Foundation leaves unspecified, so the rendering is
    stated for every order that lists each header name once. */
module Curls {
  import opened Wrappers
  import Utf8
  import Text
  import Http

  predicate StartsWith(s: string, prefix: string) {
    |prefix| <= |s| && s[..|prefix|] == prefix
  }

  predicate EndsWith(s: string, suffix: string) {
    |suffix| <= |s| && s[|s| - |suffix|..] == suffix
  }

  /** `order` lists every name of `names` exactly once. */
  ghost predicate IsOrderOf(order: seq<string>, names: set<string>) {
    (forall k :: k in order <==> k in names)
    && (forall i, j :: 0 <= i < j < |order| ==> order[i] != order[j])
  }

  /** The method `description` shows: GET when the request has none. */
  function MethodText(request: Http.UrlRequest): string {
    if request.httpMethod.Some? then request.httpMethod.value else "GET"
  }

  /** The path `description` shows: "/" when the request has no URL. */
  function PathText(request: Http.UrlRequest): string {
    if request.url.Some? then Http.PathString(request.url.value) else "/"
  }

  /** The separator `debugDescription` puts between components: a space, a backslash,
      a line break and a tab. */
  const Separator := " \\\n\t"

  /** The first component: the quoted absolute URL, and ` --head` for a HEAD request. */
  function BaseLine(u: Http.Url, m: Option<string>): (r: string)
    ensures StartsWith(r, "curl \"")
  {
    "curl \"" + Http.AbsoluteString(u) + "\"" + (if m == Some("HEAD") then " --head" else "")
  }

  function MethodLines(m: Option<string>): (r: seq<string>)
    ensures |r| <= 1 && (m.Some? <==> |r| == 1)
    ensures forall i :: 0 <= i < |r| ==> StartsWith(r[i], "-X ")
  {
    if m.Some? then ["-X " + m.value] else []
  }

  function HeaderLine(key: string, value: string): (r: string)
    ensures StartsWith(r, "-H '")
  {
    "-H '" + key + ": " + value + "'"
  }

  /** The `-H` components for the header names in `order`, the Cookie header skipped. */
  function HeaderLines(fields: map<string, string>, order: seq<string>): (r: seq<string>)
    requires forall k :: k in order ==> k in fields
    ensures |r| <= |order|
    ensures forall i :: 0 <= i < |r| ==> StartsWith(r[i], "-H '")
    decreases |order|
  {
    if order == [] then []
    else
      var key := order[|order| - 1];
      HeaderLines(fields, order[..|order| - 1]) + (if key == "Cookie" then [] else [HeaderLine(key, fields[key])])
  }

  /** The `-d` component: present when there is a body and it is valid UTF-8. */
  function BodyLines(body: Option<Utf8.Bytes>): (r: seq<string>)
    ensures |r| <= 1
    ensures forall i :: 0 <= i < |r| ==> StartsWith(r[i], "-d '")
  {
    match body
    case None => []
    case Some(data) =>
      match Utf8.Decode(data)
      case None => []
      case Some(text) => ["-d '" + text + "'"]
  }

  /** The components `components` returns when the header names are walked in `order`. */
  function ComponentsFor(request: Http.UrlRequest, order: seq<string>): (r: seq<string>)
    requires request.allHTTPHeaderFields.Some? ==> forall k :: k in order ==> k in request.allHTTPHeaderFields.value
    ensures request.url.None? <==> r == []
  {
    if request.url.None? then []
    else
      [BaseLine(request.url.value, request.httpMethod)]
      + MethodLines(request.httpMethod)
      + (if request.allHTTPHeaderFields.Some? then HeaderLines(request.allHTTPHeaderFields.value, order) else [])
      + BodyLines(request.httpBody)
  }

  /** `for (key, value) in headers where key != "Cookie"`: one `-H` component per header,
      in the order the walk visits the names. */
  method WalkHeaders(headers: map<string, string>) returns (lines: seq<string>, ghost order: seq<string>)
    ensures IsOrderOf(order, headers.Keys)
    ensures lines == HeaderLines(headers, order)
  {
    lines, order := [], [];
    var pending := headers.Keys;
    while pending != {}
      invariant pending <= headers.Keys
      invariant forall k :: k in order <==> k in headers.Keys && k !in pending
      invariant forall i, j :: 0 <= i < j < |order| ==> order[i] != order[j]
      invariant lines == HeaderLines(headers, order)
      decreases pending
    {
      var key :| key in pending;
      if key != "Cookie" {
        lines := lines + [HeaderLine(key, headers[key])];
      }
      assert (order + [key])[..|order|] == order;
      order := order + [key];
      pending := pending - {key};
    }
  }

  datatype Curl = Curl(request: Http.UrlRequest, name: string)
  {
    /** `description`: "METHOD PATH". */
    function Description(): (r: string)
      ensures |r| == |MethodText(request)| + 1 + |PathText(request)|
      ensures r[..|MethodText(request)|] == MethodText(request) && r[|MethodText(request)|] == ' '
      ensures r[|MethodText(request)| + 1..] == PathText(request)
    {
      MethodText(request) + " " + PathText(request)
    }

    /** `components`: the base line, `-X` with the method, one `-H` per header except Cookie,
        and `-d` with a UTF-8 body. */
    method Components() returns (r: seq<string>, ghost order: seq<string>)
      ensures request.url.Some? && request.allHTTPHeaderFields.Some? ==>
        IsOrderOf(order, request.allHTTPHeaderFields.value.Keys)
      ensures request.url.None? || request.allHTTPHeaderFields.None? ==> order == []
      ensures r == ComponentsFor(request, order)
    {
      order := [];
      if request.url.None? {
        return [], order;
      }
      var base := "curl \"" + Http.AbsoluteString(request.url.value) + "\"";
      if request.httpMethod == Some("HEAD") {
        base := base + " --head";
      }
      var components := [base];
      if request.httpMethod.Some? {
        components := components + ["-X " + request.httpMethod.value];
      }
      ghost var front := components;
      if request.allHTTPHeaderFields.Some? {
        var lines;
        lines, order := WalkHeaders(request.allHTTPHeaderFields.value);
        components := components + lines;
      }
      if request.httpBody.Some? {
        var body := Utf8.Decode(request.httpBody.value);
        if body.Some? {
          components := components + ["-d '" + body.value + "'"];
        }
      }
      assert base == BaseLine(request.url.value, request.httpMethod);
      assert front == [base] + MethodLines(request.httpMethod);
      assert components == front
        + (if request.allHTTPHeaderFields.Some? then HeaderLines(request.allHTTPHeaderFields.value, order) else [])
        + BodyLines(request.httpBody);
      return components, order;
    }

    /** `debugDescription`: the components joined by the separator. */
    method DebugDescription() returns (r: string, ghost order: seq<string>)
      ensures request.url.Some? && request.allHTTPHeaderFields.Some? ==>
        IsOrderOf(order, request.allHTTPHeaderFields.value.Keys)
      ensures request.url.None? || request.allHTTPHeaderFields.None? ==> order == []
      ensures r == Text.Join(ComponentsFor(request, order), Separator)
    {
      var components;
      components, order := Components();
      r := Text.Join(components, Separator);
    }
  }

  /** `Curl(request)`: the name is the URL's path, or, without a URL, the request's hash
      value (given here) in decimal. */
  function Init(request: Http.UrlRequest, hashValue: int): (c: Curl)
    ensures c.request == request
    ensures request.url.Some? ==> c.name == Http.PathString(request.url.value)
    ensures request.url.None? ==> Text.ParseInt(c.name) == Some(hashValue)
  {
    Text.IntRoundTrip(hashValue);
    Curl(request, if request.url.Some? then Http.PathString(request.url.value) else Text.IntToString(hashValue))
  }

  /** Shorthand for the precondition of `ComponentsFor`. */
  ghost predicate Walkable(request: Http.UrlRequest, order: seq<string>) {
    request.allHTTPHeaderFields.Some? ==> forall k :: k in order ==> k in request.allHTTPHeaderFields.value
  }

  /** No element of `xs` starts with `p`. */
  ghost predicate NoneStartWith(xs: seq<string>, p: string) {
    forall i :: 0 <= i < |xs| ==> !StartsWith(xs[i], p)
  }

  /** Elements that all start with `q` do not start with a `p` that differs from `q` at index `j`. */
  lemma OtherPrefix(xs: seq<string>, p: string, q: string, j: nat)
    requires j < |p| && j < |q| && p[j] != q[j]
    requires forall i :: 0 <= i < |xs| ==> StartsWith(xs[i], q)
    ensures NoneStartWith(xs, p)
  {
    forall i | 0 <= i < |xs|
      ensures !StartsWith(xs[i], p)
    {
      assert xs[i][..|q|][j] == xs[i][j];
    }
  }

  lemma NoneStartWithConcat(xs: seq<string>, ys: seq<string>, p: string)
    requires NoneStartWith(xs, p) && NoneStartWith(ys, p)
    ensures NoneStartWith(xs + ys, p)
  {
    forall i | 0 <= i < |xs + ys|
      ensures !StartsWith((xs + ys)[i], p)
    {
      if i < |xs| {
        assert (xs + ys)[i] == xs[i];
      } else {
        assert (xs + ys)[i] == ys[i - |xs|];
      }
    }
  }

  /** The base component: the quoted absolute URL, with ` --head` appended exactly for a HEAD request. */
  lemma BaseComponent(request: Http.UrlRequest, order: seq<string>)
    requires Walkable(request, order) && request.url.Some?
    ensures var r := ComponentsFor(request, order);
      |r| >= 1 && StartsWith(r[0], "curl \"" + Http.AbsoluteString(request.url.value) + "\"")
      && (EndsWith(r[0], " --head") <==> request.httpMethod == Some("HEAD"))
  {
    var r := ComponentsFor(request, order);
    var quoted := "curl \"" + Http.AbsoluteString(request.url.value) + "\"";
    assert r[0] == BaseLine(request.url.value, request.httpMethod);
    if request.httpMethod == Some("HEAD") {
      assert r[0] == quoted + " --head";
      assert r[0][..|quoted|] == quoted;
      assert r[0][|r[0]| - 7..] == " --head";
    } else {
      assert r[0] == quoted;
      assert r[0][|r[0]| - 1] == '"';
    }
  }

  /** `-X` with the method comes right after the base, and a component starting with "-X "
      exists exactly when the request has a method. */
  lemma MethodComponent(request: Http.UrlRequest, order: seq<string>)
    requires Walkable(request, order) && request.url.Some?
    ensures var r := ComponentsFor(request, order);
      (request.httpMethod.Some? ==> |r| >= 2 && r[1] == "-X " + request.httpMethod.value)
      && ((exists i :: 0 <= i < |r| && StartsWith(r[i], "-X ")) <==> request.httpMethod.Some?)
  {
    var r := ComponentsFor(request, order);
    var m := MethodLines(request.httpMethod);
    var h := if request.allHTTPHeaderFields.Some? then HeaderLines(request.allHTTPHeaderFields.value, order) else [];
    var b := BodyLines(request.httpBody);
    assert r == [r[0]] + m + h + b;
    if request.httpMethod.Some? {
      assert r[1] == "-X " + request.httpMethod.value;
      assert StartsWith(r[1], "-X ");
    } else {
      OtherPrefix([r[0]], "-X ", "curl \"", 0);
      OtherPrefix(h, "-X ", "-H '", 1);
      OtherPrefix(b, "-X ", "-d '", 1);
      NoneStartWithConcat([r[0]], h, "-X ");
      NoneStartWithConcat([r[0]] + h, b, "-X ");
      assert r == [r[0]] + h + b;
    }
  }

  /** The header components walked in any order are among the components. */
  lemma {:induction false} HeaderLinesContain(fields: map<string, string>, order: seq<string>, key: string)
    requires forall k :: k in order ==> k in fields
    requires key in order && key != "Cookie"
    ensures HeaderLine(key, fields[key]) in HeaderLines(fields, order)
    decreases |order|
  {
    var last := order[|order| - 1];
    var front := order[..|order| - 1];
    if last != key {
      assert key in front by {
        var i :| 0 <= i < |order| && order[i] == key;
        assert front[i] == key;
      }
      HeaderLinesContain(fields, front, key);
    }
  }

  /** Every header component is the line of some header other than Cookie. */
  lemma {:induction false} HeaderLinesFrom(fields: map<string, string>, order: seq<string>, line: string)
    requires forall k :: k in order ==> k in fields
    requires line in HeaderLines(fields, order)
    ensures exists k :: k in order && k != "Cookie" && line == HeaderLine(k, fields[k])
    decreases |order|
  {
    var last := order[|order| - 1];
    var front := order[..|order| - 1];
    if line in HeaderLines(fields, front) {
      HeaderLinesFrom(fields, front, line);
      var k :| k in front && k != "Cookie" && line == HeaderLine(k, fields[k]);
      assert k in order;
    } else {
      assert line == HeaderLine(last, fields[last]) && last != "Cookie";
    }
  }

  /** With each name walked once, there is one header component per header other than Cookie. */
  lemma {:induction false} HeaderLinesCount(fields: map<string, string>, order: seq<string>)
    requires forall k :: k in order ==> k in fields
    requires forall i, j :: 0 <= i < j < |order| ==> order[i] != order[j]
    ensures |HeaderLines(fields, order)| + (if "Cookie" in order then 1 else 0) == |order|
    decreases |order|
  {
    if order != [] {
      var last := order[|order| - 1];
      var front := order[..|order| - 1];
      HeaderLinesCount(fields, front);
      assert order == front + [last];
      if last == "Cookie" {
        assert "Cookie" !in front by {
          forall i | 0 <= i < |front| ensures front[i] != "Cookie" {
            assert front[i] == order[i];
          }
        }
      }
    }
  }

  /** A sequence without repetitions has as many distinct elements as entries. */
  lemma {:induction false} DistinctCardinality(order: seq<string>)
    requires forall i, j :: 0 <= i < j < |order| ==> order[i] != order[j]
    ensures |set k | k in order| == |order|
    decreases |order|
  {
    if order != [] {
      var front := order[..|order| - 1];
      var last := order[|order| - 1];
      DistinctCardinality(front);
      assert last !in front by {
        forall i | 0 <= i < |front| ensures front[i] != last {
          assert front[i] == order[i];
        }
      }
      assert (set k | k in order) == (set k | k in front) + {last} by {
        assert order == front + [last];
      }
    }
  }

  /** The `-H` components: the line of every header other than Cookie is present, every `-H`
      component is such a line, and there are as many of them as such headers. */
  lemma HeaderComponentsListed(request: Http.UrlRequest, order: seq<string>)
    requires request.url.Some? && request.allHTTPHeaderFields.Some?
    requires IsOrderOf(order, request.allHTTPHeaderFields.value.Keys)
    ensures var fields := request.allHTTPHeaderFields.value;
      var r := ComponentsFor(request, order);
      (forall k :: k in fields && k != "Cookie" ==> HeaderLine(k, fields[k]) in r)
      && (forall line :: line in HeaderLines(fields, order) ==>
            exists k :: k in fields && k != "Cookie" && line == HeaderLine(k, fields[k]))
      && |HeaderLines(fields, order)| == |fields| - (if "Cookie" in fields then 1 else 0)
  {
    var fields := request.allHTTPHeaderFields.value;
    var r := ComponentsFor(request, order);
    var h := HeaderLines(fields, order);
    assert r == [r[0]] + MethodLines(request.httpMethod) + h + BodyLines(request.httpBody);
    forall k | k in fields && k != "Cookie" ensures HeaderLine(k, fields[k]) in r {
      HeaderLinesContain(fields, order, k);
    }
    forall line | line in h ensures exists k :: k in fields && k != "Cookie" && line == HeaderLine(k, fields[k]) {
      HeaderLinesFrom(fields, order, line);
    }
    HeaderLinesCount(fields, order);
    DistinctCardinality(order);
    assert (set k | k in order) == fields.Keys;
  }

  /** `-d` comes last, and a component starting with "-d " exists exactly when the body is
      present and valid UTF-8. */
  lemma BodyComponent(request: Http.UrlRequest, order: seq<string>)
    requires Walkable(request, order) && request.url.Some?
    ensures var r := ComponentsFor(request, order);
      var shown := request.httpBody.Some? && Utf8.Decode(request.httpBody.value).Some?;
      (shown ==> r[|r| - 1] == "-d '" + Utf8.Decode(request.httpBody.value).value + "'")
      && ((exists i :: 0 <= i < |r| && StartsWith(r[i], "-d ")) <==> shown)
  {
    var r := ComponentsFor(request, order);
    var shown := request.httpBody.Some? && Utf8.Decode(request.httpBody.value).Some?;
    var m := MethodLines(request.httpMethod);
    var h := if request.allHTTPHeaderFields.Some? then HeaderLines(request.allHTTPHeaderFields.value, order) else [];
    var b := BodyLines(request.httpBody);
    assert r == [r[0]] + m + h + b;
    if shown {
      assert StartsWith(r[|r| - 1], "-d ");
    } else {
      OtherPrefix([r[0]], "-d ", "curl \"", 0);
      OtherPrefix(m, "-d ", "-X ", 1);
      OtherPrefix(h, "-d ", "-H '", 1);
      NoneStartWithConcat([r[0]], m, "-d ");
      NoneStartWithConcat([r[0]] + m, h, "-d ");
      assert r == [r[0]] + m + h;
    }
  }

  /** A body holding the UTF-8 encoding of a text is shown as that text. */
  lemma TextBodyShown(request: Http.UrlRequest, order: seq<string>, text: string)
    requires Walkable(request, order) && request.url.Some? && request.httpBody == Some(Utf8.Encode(text))
    ensures var r := ComponentsFor(request, order); r[|r| - 1] == "-d '" + text + "'"
  {
    Utf8.DecodeEncode(text);
    BodyComponent(request, order);
  }

  /** Every component occurs in the debug description; without a URL it is empty. */
  lemma DebugDescriptionShowsComponents(request: Http.UrlRequest, order: seq<string>, i: nat)
    requires Walkable(request, order)
    requires i < |ComponentsFor(request, order)|
    ensures Text.Occurs(ComponentsFor(request, order)[i], Text.Join(ComponentsFor(request, order), Separator))
  {
    Text.JoinContainsPart(ComponentsFor(request, order), Separator, i);
  }

  /** When neither method contains a space, equal descriptions come from equal methods and paths. */
  lemma DescriptionDetermines(c1: Curl, c2: Curl)
    requires ' ' !in MethodText(c1.request) && ' ' !in MethodText(c2.request)
    requires c1.Description() == c2.Description()
    ensures MethodText(c1.request) == MethodText(c2.request) && PathText(c1.request) == PathText(c2.request)
  {
    var m1, m2 := MethodText(c1.request), MethodText(c2.request);
    assert |m1| == |m2|;
  }
}
