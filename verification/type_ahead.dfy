/**
 * The SearchBar and the backend together: what the dropdown lists after a
 * keystroke once the debounced fetch of `/api/items?q=<typed value>` answers.
 */
module TypeAhead {
  import opened Wrappers
  import opened Text
  import opened Json
  import SqlLike
  import ItemsApi
  import SearchBar

  /**
   * The frontend's view of the backend's answer to `GET /api/items?q=<fetched>`:
   * for a non-blank query, the listed hits are exactly the stored rows the
   * query selects.
   */
  function Answer(table: seq<ItemsApi.Item>, fetched: string): (hits: seq<SearchBar.Hit>)
    ensures |hits| <= |table|
    ensures forall h :: h in hits ==>
      ItemsApi.ItemRow(h.id, h.name) in table && ItemsApi.Selects(ItemsApi.QueryParam(Some(fetched)), ItemsApi.ItemRow(h.id, h.name))
    ensures forall x :: x in table && ItemsApi.QueryParam(Some(fetched)) != [] && ItemsApi.Selects(ItemsApi.QueryParam(Some(fetched)), x) ==>
      SearchBar.Hit(x.id, x.name) in hits
    ensures ItemsApi.QueryParam(Some(fetched)) == [] ==> hits == []
  {
    var records := ItemsApi.Search(table, Some(fetched));
    var hits := Hits(records);
    AnswerSound(table, fetched, hits);
    AnswerComplete(table, fetched, hits);
    hits
  }

  /** The hit the dropdown shows for one `{id, name}` record. */
  function HitOf(d: map<string, Json>): SearchBar.Hit
    requires ItemsApi.FromDict(d).Some?
  {
    var item := ItemsApi.FromDict(d).value;
    SearchBar.Hit(item.id, item.name)
  }

  predicate AllRecords(records: seq<map<string, Json>>) {
    forall d :: d in records ==> ItemsApi.FromDict(d).Some?
  }

  /** `setResults(data)`, one hit per record in the order received. */
  function Hits(records: seq<map<string, Json>>): (hits: seq<SearchBar.Hit>)
    requires AllRecords(records)
    ensures |hits| == |records|
    ensures forall i :: 0 <= i < |records| ==> hits[i] == HitOf(records[i])
  {
    seq(|records|, i requires 0 <= i < |records| => assert records[i] in records; HitOf(records[i]))
  }

  lemma AnswerSound(table: seq<ItemsApi.Item>, fetched: string, hits: seq<SearchBar.Hit>)
    requires hits == Hits(ItemsApi.Search(table, Some(fetched)))
    ensures forall h :: h in hits ==>
      ItemsApi.ItemRow(h.id, h.name) in table && ItemsApi.Selects(ItemsApi.QueryParam(Some(fetched)), ItemsApi.ItemRow(h.id, h.name))
  {
    var records := ItemsApi.Search(table, Some(fetched));
    forall h | h in hits
      ensures ItemsApi.ItemRow(h.id, h.name) in table && ItemsApi.Selects(ItemsApi.QueryParam(Some(fetched)), ItemsApi.ItemRow(h.id, h.name))
    {
      var i :| 0 <= i < |hits| && hits[i] == h;
      assert records[i] in records;
    }
  }

  lemma AnswerComplete(table: seq<ItemsApi.Item>, fetched: string, hits: seq<SearchBar.Hit>)
    requires hits == Hits(ItemsApi.Search(table, Some(fetched)))
    ensures forall x :: x in table && ItemsApi.QueryParam(Some(fetched)) != [] && ItemsApi.Selects(ItemsApi.QueryParam(Some(fetched)), x) ==>
      SearchBar.Hit(x.id, x.name) in hits
  {
    var records := ItemsApi.Search(table, Some(fetched));
    forall x | x in table && ItemsApi.QueryParam(Some(fetched)) != [] && ItemsApi.Selects(ItemsApi.QueryParam(Some(fetched)), x)
      ensures SearchBar.Hit(x.id, x.name) in hits
    {
      var i :| 0 <= i < |records| && records[i] == ItemsApi.ToDict(x);
      assert hits[i] == SearchBar.Hit(x.id, x.name);
    }
  }

  /**
   * Typing a value that JavaScript does not consider blank, with no LIKE
   * metacharacters, and letting the timer fire and the fetch answer leaves
   * the dropdown open on the typed text.  If Python does consider the value
   * blank the list is empty; otherwise it lists exactly the stored rows whose
   * names start with the Python-trimmed text, ignoring case.
   */
  lemma TypingListsPrefixMatches(s: SearchBar.BarState, val: string, table: seq<ItemsApi.Item>)
    requires !AllSpace(JavaScriptSpaces, val) && SqlLike.NoLikeMeta(Trim(PythonSpaces, val))
    ensures var typed := SearchBar.Typed(s, val);
      SearchBar.Fetched(typed) == Some(val) &&
      var shown := SearchBar.ResultsArrived(SearchBar.TimerFired(typed), Answer(table, val));
      shown.open && shown.query == val && shown.selectedIndex == -1 &&
      (AllSpace(PythonSpaces, val) ==> shown.results == []) &&
      (!AllSpace(PythonSpaces, val) ==>
        (forall h :: h in shown.results ==> Lower(Trim(PythonSpaces, val)) <= Lower(h.name)) &&
        (forall x :: x in table && Lower(Trim(PythonSpaces, val)) <= Lower(x.name) ==> SearchBar.Hit(x.id, x.name) in shown.results))
  {
    var hits := Answer(table, val);
    var q := Trim(PythonSpaces, val);
    if !AllSpace(PythonSpaces, val) {
      forall h | h in hits ensures Lower(q) <= Lower(h.name) {
        var x: ItemsApi.Item := ItemsApi.ItemRow(h.id, h.name);
        assert ItemsApi.Selects(q, x);
      }
      forall x | x in table && Lower(q) <= Lower(x.name) ensures SearchBar.Hit(x.id, x.name) in hits {
        assert ItemsApi.Selects(q, x);
      }
    }
  }

  /**
   * The frontend and the backend disagree on what is blank: U+001F is not
   * whitespace to JavaScript's `trim` but is to Python's `strip`, so typing
   * it opens the dropdown and fetches, and the backend answers nothing.
   */
  lemma SeparatorOpensEmptyDropdown(s: SearchBar.BarState, table: seq<ItemsApi.Item>)
    ensures var typed := SearchBar.Typed(s, "\U{1F}");
      typed.open && SearchBar.Fetched(typed) == Some("\U{1F}") &&
      SearchBar.ResultsArrived(SearchBar.TimerFired(typed), Answer(table, "\U{1F}")).results == []
  {
    var val := "\U{1F}";
    assert !IsSpace(JavaScriptSpaces, val[0]);
    assert AllSpace(PythonSpaces, val);
  }
}
