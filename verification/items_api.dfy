/**
 * The Flask backend (backend/app.py): the `items` table, the record each row
 * is serialised to, the `/api/items?q=` prefix search, the `/` info payload,
 * and the start-up log line that names the database.
 *
 * The search pattern is `q + "%"` handed to `ilike` without escaping, so `%`
 * and `_` inside q act as LIKE wildcards and `\` as LIKE's escape character;
 * the model keeps that behaviour (see SqlLike).  The plain "name starts with
 * q, ignoring case" reading is proved only for q free of those characters.
 */
module ItemsApi {
  import opened Wrappers
  import opened Text
  import opened Json
  import opened SqlLike
  import DbConfig
  import UrlEncoding

  /** `name = db.Column(db.String(100), nullable=False)` */
  const MaxNameLength := 100

  datatype ItemRow = ItemRow(id: int, name: string)

  /** A stored row: the column type bounds the name at 100 characters. */
  type Item = it: ItemRow | |it.name| <= MaxNameLength witness ItemRow(0, [])

  /** Reads a serialised record back; None unless it has exactly the keys `id` and `name`. */
  function FromDict(d: map<string, Json>): Option<Item> {
    if d.Keys == {"id", "name"} && d["id"].JNum? && d["name"].JStr? && |d["name"].s| <= MaxNameLength
    then Some(ItemRow(d["id"].n, d["name"].s))
    else None
  }

  /** `Item.to_dict`: exactly the keys `id` and `name`, carrying the stored values. */
  function ToDict(item: Item): (d: map<string, Json>)
    ensures d.Keys == {"id", "name"}
    ensures FromDict(d) == Some(item)
  {
    map["id" := JNum(item.id), "name" := JStr(item.name)]
  }

  /** Reading a record back and serialising it again gives the same record. */
  lemma FromDictToDict(d: map<string, Json>)
    requires FromDict(d).Some?
    ensures ToDict(FromDict(d).value) == d
  {
    var e := ToDict(FromDict(d).value);
    assert e.Keys == d.Keys;
    assert forall k :: k in d ==> k == "id" || k == "name";
  }

  /** `request.args.get('q', '').strip()` */
  function QueryParam(rawQ: Option<string>): (q: string)
    ensures q == [] <==> (rawQ.None? || AllSpace(PythonSpaces, rawQ.value))
  {
    match rawQ
    case None => Trim(PythonSpaces, "")
    case Some(s) => Trim(PythonSpaces, s)
  }

  /**
   * `Item.name.ilike(f"{q}%")` for one row.  For a q with no LIKE
   * metacharacter this says that the name starts with q, ignoring case.
   */
  function Selects(q: string, item: Item): (b: bool)
    ensures NoLikeMeta(q) ==> (b <==> Lower(q) <= Lower(item.name))
  {
    LowerAppend(q, "%");
    assert Lower("%") == "%";
    NoLikeMetaLower(q);
    LikeLiteralPrefix(Lower(q), Lower(item.name));
    ILike(item.name, q + "%")
  }

  /** The rows `Item.query.filter(...).all()` returns: the matching rows of the table, in table order. */
  function Matching(table: seq<Item>, q: string): (r: seq<Item>)
    ensures |r| <= |table|
    ensures forall x :: x in r <==> x in table && Selects(q, x)
  {
    if table == [] then []
    else if Selects(q, table[0]) then [table[0]] + Matching(table[1..], q)
    else Matching(table[1..], q)
  }

  /** `[item.to_dict() for item in items]` */
  function Serialize(items: seq<Item>): (r: seq<map<string, Json>>)
    ensures |r| == |items|
    ensures forall d :: d in r ==> FromDict(d).Some? && FromDict(d).value in items
    ensures forall x :: x in items ==> ToDict(x) in r
  {
    if items == [] then [] else [ToDict(items[0])] + Serialize(items[1..])
  }

  /**
   * `GET /api/items?q=...`: nothing for a missing or blank q; otherwise every
   * stored row that the pattern selects, and nothing else, as `{id, name}`.
   */
  function Search(table: seq<Item>, rawQ: Option<string>): (r: seq<map<string, Json>>)
    ensures QueryParam(rawQ) == [] ==> r == []
    ensures |r| <= |table|
    ensures forall d :: d in r ==>
      FromDict(d).Some? && FromDict(d).value in table && Selects(QueryParam(rawQ), FromDict(d).value)
    ensures forall x :: x in table && QueryParam(rawQ) != [] && Selects(QueryParam(rawQ), x) ==> ToDict(x) in r
  {
    var q := QueryParam(rawQ);
    if q == [] then [] else Serialize(Matching(table, q))
  }

  /** A missing, empty or blank q gives `[]` whatever the table holds. */
  lemma BlankQueryFindsNothing(table: seq<Item>, rawQ: Option<string>)
    requires rawQ.None? || AllSpace(PythonSpaces, rawQ.value)
    ensures Search(table, rawQ) == []
  {
  }

  /** Whitespace around q is ignored: `Search(t, "  app ") == Search(t, "app")`. */
  lemma SearchIgnoresPadding(table: seq<Item>, pre: string, q: string, post: string)
    requires AllSpace(PythonSpaces, pre) && AllSpace(PythonSpaces, post)
    ensures Search(table, Some(pre + q + post)) == Search(table, Some(q))
  {
    TrimIgnoresPadding(PythonSpaces, pre, q, post);
  }

  /**
   * For a q free of LIKE metacharacters, a row is returned exactly when its
   * name, folded to lower case, starts with q folded to lower case.
   */
  lemma SearchIsCaseInsensitivePrefix(table: seq<Item>, rawQ: Option<string>, x: Item)
    requires QueryParam(rawQ) != [] && NoLikeMeta(QueryParam(rawQ))
    ensures ToDict(x) in Search(table, rawQ) <==> x in table && Lower(QueryParam(rawQ)) <= Lower(x.name)
  {
    assert FromDict(ToDict(x)) == Some(x);
  }

  /** A row selected by a longer pattern is selected by any prefix of it that has no escape character. */
  lemma SelectsWidens(q: string, rest: string, x: Item)
    requires '\\' !in q
    requires Selects(q + rest, x)
    ensures Selects(q, x)
  {
    assert '\\' !in Lower(q) by {
      forall i | 0 <= i < |q| ensures Lower(q)[i] != '\\' {
        assert q[i] in q;
      }
    }
    assert (q + rest) + "%" == q + (rest + "%");
    LowerAppend(q, rest + "%");
    LikeWidens(Lower(q), Lower(rest + "%"), Lower(x.name));
    LowerAppend(q, "%");
    assert Lower("%") == "%";
  }

  /**
   * Typing one more character never adds results: every record found for
   * `q + c` is found for q (q not blank and free of the escape character).
   */
  lemma SearchNarrows(table: seq<Item>, q: string, c: char)
    requires Trim(PythonSpaces, q) != [] && '\\' !in q
    ensures forall d :: d in Search(table, Some(q + [c])) ==> d in Search(table, Some(q))
  {
    var q0, q1 := QueryParam(Some(q)), QueryParam(Some(q + [c]));
    TrimGrows(PythonSpaces, q, c);
    assert '\\' !in q0;
    LongerQueryNarrows(table, q0, q1);
  }

  /** Every record a longer pattern returns is also returned for a backslash-free prefix of it. */
  lemma LongerQueryNarrows(table: seq<Item>, q0: string, q1: string)
    requires q0 != [] && q0 <= q1 && '\\' !in q0
    ensures forall d :: d in Serialize(Matching(table, q1)) ==> d in Serialize(Matching(table, q0))
  {
    var rest := q1[|q0|..];
    assert q1 == q0 + rest;
    forall d | d in Serialize(Matching(table, q1))
      ensures d in Serialize(Matching(table, q0))
    {
      var x := FromDict(d).value;
      SelectsWidens(q0, rest, x);
      FromDictToDict(d);
    }
  }

  /** No two rows share an id (the primary key). */
  predicate DistinctIds(items: seq<Item>) {
    forall i, j :: 0 <= i < j < |items| ==> items[i].id != items[j].id
  }

  /** The rows a search selects keep the table's distinct ids. */
  lemma {:induction false} MatchingKeepsIdsDistinct(table: seq<Item>, q: string)
    requires DistinctIds(table)
    ensures DistinctIds(Matching(table, q))
  {
    if table != [] {
      assert DistinctIds(table[1..]) by {
        forall i, j | 0 <= i < j < |table[1..]| ensures table[1..][i].id != table[1..][j].id {
          assert table[1..][i] == table[i + 1] && table[1..][j] == table[j + 1];
        }
      }
      MatchingKeepsIdsDistinct(table[1..], q);
      if Selects(q, table[0]) {
        var rest := Matching(table[1..], q);
        forall j | 0 <= j < |rest| ensures rest[j].id != table[0].id {
          assert rest[j] in rest;
          var k :| 0 <= k < |table[1..]| && table[1..][k] == rest[j];
          assert table[k + 1] == rest[j];
        }
        assert Matching(table, q) == [table[0]] + rest;
      }
    }
  }

  const ItemsRoute := "/api/items"

  /** `GET /`: a constant payload naming the search endpoint and an example call. */
  function Home(): (r: Json)
    ensures r.JObj? && r.fields.Keys == {"message", "endpoints"}
    ensures r.fields["message"].JStr?
    ensures var e := r.fields["endpoints"];
      e.JObj? && e.fields.Keys == {"search", "example"} &&
      e.fields["search"].JStr? && ItemsRoute + "?q=" <= e.fields["search"].s &&
      e.fields["example"].JStr? && ItemsRoute + "?q=" <= e.fields["example"].s
  {
    JObj(map[
      "message" := JStr("Search Backend API is running!"),
      "endpoints" := JObj(map[
        "search" := JStr("/api/items?q=search_term"),
        "example" := JStr("/api/items?q=test")])])
  }

  const LogPrefix := "Attempting DB connection to "

  /**
   * The log line written at start-up: the URI cut after its last `@`, so the
   * logged part is a tail of the URI that holds no `@`.
   */
  function StartupLog(config: DbConfig.Config): (r: string)
    ensures LogPrefix <= r
    ensures '@' !in r[|LogPrefix|..]
    ensures var uri := config.databaseUri;
      |r| - |LogPrefix| <= |uri| && r[|LogPrefix|..] == uri[|uri| - (|r| - |LogPrefix|)..]
    ensures |r| - |LogPrefix| < |config.databaseUri| ==> config.databaseUri[|config.databaseUri| - (|r| - |LogPrefix|) - 1] == '@'
  {
    var tail := LastField(config.databaseUri, '@');
    assert (LogPrefix + tail)[|LogPrefix|..] == tail;
    LogPrefix + tail
  }

  /**
   * When the host, port and database name hold no `@`, the start-up log names
   * exactly those three and so is the same for every user name and password.
   */
  lemma StartupLogHidesCredentials(env: DbConfig.Env)
    requires DbConfig.Load(env).Ok?
    requires '@' !in DbConfig.Host(env) && '@' !in DbConfig.Port(env) && '@' !in DbConfig.DbName(env)
    ensures StartupLog(DbConfig.Load(env).value) ==
      LogPrefix + (DbConfig.Host(env) + ":" + DbConfig.Port(env) + "/" + DbConfig.DbName(env))
  {
    var user, password := DbConfig.User(env), UrlEncoding.QuotePlus(DbConfig.RawPass(env));
    LogOfUri(DbConfig.Load(env).value, user, password, DbConfig.Host(env), DbConfig.Port(env), DbConfig.DbName(env));
  }

  lemma LogOfUri(config: DbConfig.Config, user: string, password: string, host: string, port: string, dbName: string)
    requires config.databaseUri == DbConfig.DatabaseUri(user, password, host, port, dbName)
    requires '@' !in host && '@' !in port && '@' !in dbName
    ensures StartupLog(config) == LogPrefix + (host + ":" + port + "/" + dbName)
  {
    assert LastField(config.databaseUri, '@') == host + ":" + port + "/" + dbName;
  }
}
