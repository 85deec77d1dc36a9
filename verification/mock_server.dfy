/**
 * The Express mock server (server.js): `GET /health` and `POST /api/search`,
 * whose answer depends only on the `query` field of the JSON request body.
 */
module MockServer {
  import opened Wrappers
  import opened Json

  /**
   * A JSON answer, or Express's default error page (its HTML text is not
   * modelled) for a handler that threw.
   */
  datatype Response = Response(status: int, body: Json) | ErrorPage(status: int)

  /** `GET /health` */
  function Health(): (r: Response)
    ensures r.Response? && r.status == 200
    ensures r.body.JObj? && r.body.fields.Keys == {"status"} && r.body.fields["status"] == JStr("ok")
  {
    Response(200, JObj(map["status" := JStr("ok")]))
  }

  predicate IsDigit(c: char) {
    '0' <= c <= '9'
  }

  /** The number a string of decimal digits denotes, most significant digit first. */
  function DigitsValue(s: string): nat
    requires forall i :: 0 <= i < |s| ==> IsDigit(s[i])
  {
    if s == [] then 0
    else
      assert IsDigit(s[|s| - 1]);
      DigitsValue(s[..|s| - 1]) * 10 + (s[|s| - 1] as int - '0' as int)
  }

  /** JavaScript's decimal rendering of a natural number: its digits, without leading zeros. */
  function NatToString(n: nat): (r: string)
    ensures r != [] && forall i :: 0 <= i < |r| ==> IsDigit(r[i])
    ensures DigitsValue(r) == n
    ensures r[0] != '0' || r == "0"
    decreases n
  {
    var d := ['0' + (n % 10) as char];
    if n < 10 then d
    else
      var r := NatToString(n / 10) + d;
      assert r[..|r| - 1] == NatToString(n / 10);
      r
  }

  /**
   * Whether `String(v)` throws a TypeError.  A parsed JSON object with its own
   * `toString` key shadows `Object.prototype.toString` with a value that is
   * not callable; `valueOf` then gives back the object itself, which is not a
   * primitive.  An array throws when one of its elements does, inside `join`.
   */
  predicate ConversionThrows(v: Json)
    decreases v
  {
    match v
    case JObj(fields) => "toString" in fields
    case JArr(items) => exists i :: 0 <= i < |items| && ConversionThrows(items[i])
    case _ => false
  }

  /**
   * JavaScript's `String(v)` as a template literal applies it to a parsed JSON
   * value, or None when the conversion throws.
   */
  function JsString(v: Json): (r: Option<string>)
    ensures r.None? <==> ConversionThrows(v)
    ensures v.JNull? ==> r == Some("null")
    ensures v.JBool? ==> r == Some(if v.b then "true" else "false")
    ensures v.JNum? && v.n >= 0 ==> r == Some(NatToString(v.n))
    ensures v.JNum? && v.n < 0 ==> r == Some("-" + NatToString(-v.n))
    ensures v.JStr? ==> r == Some(v.s)
    ensures v.JArr? && v.items == [] ==> r == Some("")
    ensures v.JObj? && "toString" !in v.fields ==> r == Some("[object Object]")
    decreases v
  {
    match v
    case JNull => Some("null")
    case JBool(b) => Some(if b then "true" else "false")
    case JNum(n) => Some(if n < 0 then "-" + NatToString(-n) else NatToString(n))
    case JStr(s) => Some(s)
    case JArr(items) => JoinElements(items, v)
    case JObj(fields) => if "toString" in fields then None else Some("[object Object]")
  }

  /** How many times c occurs in s. */
  function CountChar(s: string, c: char): nat {
    if s == [] then 0 else (if s[0] == c then 1 else 0) + CountChar(s[1..], c)
  }

  lemma {:induction false} CountCharAppend(a: string, b: string, c: char)
    ensures CountChar(a + b, c) == CountChar(a, c) + CountChar(b, c)
    decreases |a|
  {
    if a == [] {
      assert a + b == b;
    } else {
      assert (a + b)[1..] == a[1..] + b;
      CountCharAppend(a[1..], b, c);
    }
  }

  /**
   * `Array.prototype.join(",")`, in which a null element becomes the empty
   * string: the element strings with a comma between each two of them, or
   * None when converting an element throws.
   */
  function JoinElements(items: seq<Json>, ghost whole: Json): (r: Option<string>)
    requires forall x :: x in items ==> x < whole
    ensures r.None? <==> exists i :: 0 <= i < |items| && ConversionThrows(items[i])
    ensures items == [] ==> r == Some("")
    ensures |items| == 1 && items[0].JNull? ==> r == Some("")
    ensures |items| == 1 && items[0].JStr? ==> r == Some(items[0].s)
    ensures |items| == 2 && items[0].JStr? && items[1].JStr? ==> r == Some(items[0].s + "," + items[1].s)
    ensures r.Some? ==> CountChar(r.value, ',') >= |items| - 1
    decreases whole, |items|
  {
    if items == [] then Some("")
    else
      assert items[0] in items;
      assert forall x :: x in items[1..] ==> x in items;
      var first := if items[0].JNull? then Some("") else JsString(items[0]);
      assert first.None? <==> ConversionThrows(items[0]);
      if first.None? then None
      else if |items| == 1 then first
      else
        var rest := JoinElements(items[1..], whole);
        assert (exists i :: 0 <= i < |items| && ConversionThrows(items[i])) <==>
               (exists i :: 0 <= i < |items[1..]| && ConversionThrows(items[1..][i])) by {
          forall i | 1 <= i < |items| ensures items[i] == items[1..][i - 1] { }
        }
        if rest.None? then None
        else
          CountCharAppend(first.value + ",", rest.value, ',');
          CountCharAppend(first.value, ",", ',');
          Some(first.value + "," + rest.value)
  }

  /** `const { query } = req.body`: None stands for `undefined`. */
  function QueryField(body: Json): Option<Json> {
    if body.JObj? && "query" in body.fields then Some(body.fields["query"]) else None
  }

  function ErrorBody(message: string): Json {
    JObj(map["error" := JStr(message)])
  }

  function ResultsBody(results: seq<Json>): Json {
    JObj(map["results" := JArr(results)])
  }

  /**
   * `POST /api/search`: 400 without a query, no results for the empty string,
   * a 500 error page when converting the query to a string throws, and
   * otherwise exactly one synthetic result titled after the query.
   */
  function SearchRoute(body: Json): (r: Response)
    ensures r.status == 400 <==> QueryField(body).None?
    ensures r.status == 500 <==> QueryField(body).Some? && ConversionThrows(QueryField(body).value)
    ensures r.status == 200 <==> QueryField(body).Some? && !ConversionThrows(QueryField(body).value)
    ensures r.ErrorPage? <==> r.status == 500
    ensures QueryField(body).None? ==> r.body == ErrorBody("Query required")
    ensures QueryField(body) == Some(JStr("")) ==> r.body == ResultsBody([])
    ensures QueryField(body).Some? && QueryField(body) != Some(JStr("")) && r.status == 200 ==>
      r.body == ResultsBody([JObj(map["title" := JStr("Result for " + JsString(QueryField(body).value).value)])])
  {
    var query := QueryField(body);
    if query.None? then Response(400, ErrorBody("Query required"))
    else if query.value == JStr("") then Response(200, ResultsBody([]))
    else
      match JsString(query.value)
      case None => ErrorPage(500)
      case Some(text) => Response(200, ResultsBody([JObj(map["title" := JStr("Result for " + text)])]))
  }

  /** The `title` of every result, or None if some result has no string title. */
  function TitlesOf(results: seq<Json>): Option<seq<string>> {
    if results == [] then Some([])
    else if results[0].JObj? && "title" in results[0].fields && results[0].fields["title"].JStr? then
      match TitlesOf(results[1..])
      case None => None
      case Some(ts) => Some([results[0].fields["title"].s] + ts)
    else None
  }

  /** The titles in a 200 response, read back as a client would. */
  function Titles(r: Response): Option<seq<string>> {
    if r.Response? && r.status == 200 && r.body.JObj? && "results" in r.body.fields && r.body.fields["results"].JArr?
    then TitlesOf(r.body.fields["results"].items)
    else None
  }

  /**
   * A string query is not trimmed: every non-empty string, whitespace alone
   * included, gets exactly one result, and its title gives the query back.
   */
  lemma StringQueryEchoed(query: string)
    requires query != []
    ensures Titles(SearchRoute(JObj(map["query" := JStr(query)]))) == Some(["Result for " + query])
  {
    var body := JObj(map["query" := JStr(query)]);
    assert QueryField(body) == Some(JStr(query));
    assert JStr(query) != JStr("");
    var title := JObj(map["title" := JStr("Result for " + query)]);
    var r := SearchRoute(body);
    var xs := r.body.fields["results"].items;
    assert xs == [title];
    assert xs[1..] == [];
    assert TitlesOf(xs[1..]) == Some([]);
    assert "title" in title.fields && title.fields["title"] == JStr("Result for " + query);
    assert xs[0] == title;
    assert ["Result for " + query] + [] == ["Result for " + query];
    assert TitlesOf(xs) == Some(["Result for " + query]);
  }

  /** A body without a query gets no result list at all; an empty query gets an empty one. */
  lemma MissingAndEmptyQuery(body: Json)
    ensures QueryField(body).None? ==> Titles(SearchRoute(body)).None?
    ensures QueryField(body) == Some(JStr("")) ==> Titles(SearchRoute(body)) == Some([])
  {
    if QueryField(body) == Some(JStr("")) {
      assert SearchRoute(body).body.fields["results"].items == [];
    }
  }

  /**
   * `{"query": {"toString": 1}}` makes the template literal throw, and so does
   * an array query holding such an object: both answers are the 500 error
   * page.  An object without that key is titled `Result for [object Object]`.
   */
  lemma OwnToStringFails()
    ensures SearchRoute(JObj(map["query" := JObj(map["toString" := JNum(1)])])) == ErrorPage(500)
    ensures SearchRoute(JObj(map["query" := JArr([JStr("a"), JObj(map["toString" := JNum(1)])])])) == ErrorPage(500)
    ensures Titles(SearchRoute(JObj(map["query" := JObj(map["valueOf" := JNum(1)])]))) == Some(["Result for [object Object]"])
  {
    var bad := JObj(map["toString" := JNum(1)]);
    var items := [JStr("a"), bad];
    assert ConversionThrows(items[1]);
    assert ConversionThrows(JArr(items));
    var plain := JObj(map["valueOf" := JNum(1)]);
    var body := JObj(map["query" := plain]);
    assert |"toString"| != |"valueOf"|;
    assert "toString" !in plain.fields;
    assert JsString(plain) == Some("[object Object]");
    assert QueryField(body) == Some(plain);
    var r := SearchRoute(body);
    assert r.status == 200 && r.Response?;
    assert "Result for " + "[object Object]" == "Result for [object Object]";
    var title := JObj(map["title" := JStr("Result for [object Object]")]);
    assert r.body == ResultsBody([title]);
    var xs := r.body.fields["results"].items;
    assert xs == [title];
    assert xs[1..] == [];
    assert TitlesOf(xs[1..]) == Some([]);
    assert "title" in title.fields && title.fields["title"] == JStr("Result for [object Object]");
    assert xs[0] == title;
    assert ["Result for [object Object]"] + [] == ["Result for [object Object]"];
    assert TitlesOf(xs) == Some(["Result for [object Object]"]);
  }
}
