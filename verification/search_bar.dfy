/**
 * The interaction state of the SearchBar component
 * (src/components/SearchBar.tsx): the text in the input, whether the dropdown
 * is open, the highlighted result, the results of the last fetch, and the
 * value a pending debounce timer will fetch.  Each event handler is a pure
 * transition on BarState; the SearchBarComponent class holds the same state in
 * fields and its methods are proved to perform those transitions.
 */
module SearchBar {
  import opened Wrappers
  import opened Text

  /** A result as the frontend receives it: `{id, name}`. */
  datatype Hit = Hit(id: int, name: string)

  /** The keys the input's keydown handler distinguishes. */
  datatype Key = ArrowDown | ArrowUp | Enter | Escape | OtherKey

  datatype BarState = BarState(
    query: string,
    open: bool,
    selectedIndex: int,
    results: seq<Hit>,
    pendingFetch: Option<string>)

  /** The state after mounting: empty input, closed dropdown, nothing selected, no data. */
  const Initial := BarState("", false, -1, [], None)

  /** -1 means "nothing selected"; no handler ever stores a smaller index. */
  predicate WellFormed(s: BarState) {
    s.selectedIndex >= -1
  }

  /** The quotient of JavaScript's `%`: a / n rounded toward zero. */
  function JsQuot(a: int, n: int): (q: int)
    requires n > 0
    ensures a >= 0 ==> q >= 0
    ensures a < 0 ==> q <= 0
  {
    if a >= 0 then a / n else -((-a) / n)
  }

  /**
   * JavaScript's `%`: the remainder of division rounded toward zero, which
   * takes the sign of the dividend.
   */
  function JsRem(a: int, n: int): (r: int)
    requires n > 0
    ensures a == JsQuot(a, n) * n + r
    ensures a >= 0 ==> 0 <= r < n
    ensures a < 0 ==> -n < r <= 0
  {
    assert (-a) == ((-a) / n) * n + (-a) % n;
    assert a == (a / n) * n + a % n;
    if a >= 0 then a % n else -((-a) % n)
  }

  /** ArrowDown: `(prev + 1) % results.length`. */
  function NextIndex(prev: int, n: int): (r: int)
    requires n > 0
    ensures prev >= -1 ==> 0 <= r < n
    ensures -1 <= prev < n - 1 ==> r == prev + 1
    ensures prev == n - 1 ==> r == 0
  {
    if 0 <= prev + 1 < n then ModOfSmaller(prev + 1, n); JsRem(prev + 1, n)
    else if prev + 1 == n then ModOfSelf(n); JsRem(prev + 1, n)
    else JsRem(prev + 1, n)
  }

  lemma ModOfSmaller(a: int, n: int)
    requires 0 <= a < n
    ensures a % n == a
  {
  }

  lemma ModOfSelf(n: int)
    requires n > 0
    ensures n % n == 0
  {
  }

  /** ArrowUp as written: `prev <= 0 ? results.length - 1 : prev - 1`. */
  function PrevIndexAsWritten(prev: int, n: int): (r: int)
    requires n > 0
    ensures prev <= n ==> 0 <= r < n
    ensures prev > n ==> r == prev - 1 && r >= n
  {
    if prev <= 0 then n - 1 else prev - 1
  }

  /**
   * ArrowUp as evidently intended: an index past the end of the current
   * results counts as no selection and moves to the last result.
   */
  function PrevIndex(prev: int, n: int): (r: int)
    requires n > 0
    ensures 0 <= r < n
    ensures 0 < prev < n ==> r == prev - 1
    ensures prev <= 0 ==> r == n - 1
  {
    if prev <= 0 || prev > n then n - 1 else prev - 1
  }

  /** The correction changes ArrowUp only where the original leaves the list. */
  lemma PrevIndexAgreesInRange(prev: int, n: int)
    requires n > 0 && prev <= n
    ensures PrevIndex(prev, n) == PrevIndexAsWritten(prev, n)
  {
  }

  /** `onChange`: store the text, open for non-blank text, clear the selection, re-arm the timer. */
  function Typed(s: BarState, val: string): (r: BarState)
    ensures r.query == val && r.selectedIndex == -1 && r.results == s.results
    ensures r.open <==> !AllSpace(JavaScriptSpaces, val)
    ensures r.pendingFetch == if AllSpace(JavaScriptSpaces, val) then None else Some(val)
  {
    var nonBlank := Trim(JavaScriptSpaces, val) != [];
    s.(query := val, open := nonBlank, selectedIndex := -1,
       pendingFetch := if nonBlank then Some(val) else None)
  }

  /** The debounce timer fires: the value it fetches, if any. */
  function Fetched(s: BarState): Option<string> {
    s.pendingFetch
  }

  function TimerFired(s: BarState): (r: BarState)
    ensures r.pendingFetch.None?
    ensures r.(pendingFetch := s.pendingFetch) == s
  {
    s.(pendingFetch := None)
  }

  /** The fetch answers: `data` becomes the new results; nothing else changes. */
  function ResultsArrived(s: BarState, hits: seq<Hit>): (r: BarState)
    ensures r.results == hits
    ensures r.(results := s.results) == s
  {
    s.(results := hits)
  }

  /** `handleKeyDown` */
  function KeyDown(s: BarState, key: Key): (r: BarState)
    ensures r.results == s.results && r.pendingFetch == s.pendingFetch
    ensures WellFormed(s) ==> WellFormed(r)
    ensures !s.open || s.results == [] ==> r == s
    ensures s.open && s.results != [] && key.ArrowDown? ==>
      r == s.(selectedIndex := NextIndex(s.selectedIndex, |s.results|))
    ensures s.open && s.results != [] && key.ArrowUp? ==>
      r == s.(selectedIndex := PrevIndex(s.selectedIndex, |s.results|))
    ensures WellFormed(s) && s.open && s.results != [] && (key.ArrowDown? || key.ArrowUp?) ==>
      r == s.(selectedIndex := r.selectedIndex) && 0 <= r.selectedIndex < |s.results|
    ensures s.open && s.results != [] && key.Escape? ==>
      r.query == s.query && !r.open && r.selectedIndex == -1
    ensures key.Enter? ==>
      r == s || (r.query in NamesOf(s.results) && !r.open && r.selectedIndex == -1)
    ensures key.OtherKey? ==> r == s
  {
    var n := |s.results|;
    if !s.open || n == 0 then s
    else
      match key
      case ArrowDown => s.(selectedIndex := NextIndex(s.selectedIndex, n))
      case ArrowUp => s.(selectedIndex := PrevIndex(s.selectedIndex, n))
      case Enter =>
        if 0 <= s.selectedIndex < n
        then s.(query := s.results[s.selectedIndex].name, open := false, selectedIndex := -1)
        else s
      case Escape => s.(open := false, selectedIndex := -1)
      case OtherKey => s
  }

  function NamesOf(hits: seq<Hit>): (r: seq<string>)
    ensures |r| == |hits| && forall i :: 0 <= i < |hits| ==> r[i] == hits[i].name
  {
    seq(|hits|, i requires 0 <= i < |hits| => hits[i].name)
  }

  /** `handleClear`: empty input, closed dropdown, no selection; a pending timer still fires. */
  function Cleared(s: BarState): (r: BarState)
    ensures r.query == [] && !r.open && r.selectedIndex == -1
    ensures r.results == s.results && r.pendingFetch == s.pendingFetch
  {
    s.(query := "", open := false, selectedIndex := -1)
  }

  /** `handleItemClick` (a click, or Enter or Space on a result button). */
  function ItemClicked(s: BarState, index: int): (r: BarState)
    requires 0 <= index < |s.results|
    ensures r.query == s.results[index].name && !r.open && r.selectedIndex == -1
    ensures r.results == s.results && r.pendingFetch == s.pendingFetch
  {
    s.(query := s.results[index].name, open := false, selectedIndex := -1)
  }

  /** The chevron button: `setOpen(prev => !prev)`. */
  function Toggled(s: BarState): (r: BarState)
    ensures r.open != s.open && r.(open := s.open) == s
  {
    s.(open := !s.open)
  }

  /** A click anywhere in the document; only one outside the component closes the dropdown. */
  function DocumentClicked(s: BarState, insideComponent: bool): (r: BarState)
    ensures insideComponent ==> r == s
    ensures !insideComponent ==> !r.open && r.(open := s.open) == s
  {
    if insideComponent then s else s.(open := false)
  }

  /** Hovering a result selects it; leaving it clears the selection. */
  function MouseEntered(s: BarState, index: int): (r: BarState)
    requires 0 <= index < |s.results|
    ensures WellFormed(r) && r.selectedIndex == index && r.(selectedIndex := s.selectedIndex) == s
  {
    s.(selectedIndex := index)
  }

  function MouseLeft(s: BarState): (r: BarState)
    ensures WellFormed(r) && r.selectedIndex == -1 && r.(selectedIndex := s.selectedIndex) == s
  {
    s.(selectedIndex := -1)
  }

  /** Enter on the highlighted result does exactly what clicking that result does. */
  lemma EnterIsClickOnSelected(s: BarState)
    requires s.open && 0 <= s.selectedIndex < |s.results|
    ensures KeyDown(s, Enter) == ItemClicked(s, s.selectedIndex)
  {
  }

  /** Enter with nothing highlighted changes nothing. */
  lemma EnterWithoutSelection(s: BarState)
    requires !(0 <= s.selectedIndex < |s.results|)
    ensures KeyDown(s, Enter) == s
  {
  }

  /** On a list of results, ArrowUp undoes ArrowDown and ArrowDown undoes ArrowUp. */
  lemma ArrowKeysInverse(prev: int, n: int)
    requires 0 <= prev < n
    ensures PrevIndex(NextIndex(prev, n), n) == prev
    ensures NextIndex(PrevIndex(prev, n), n) == prev
  {
  }

  /** The highlighted index after k presses of ArrowDown. */
  function DownPresses(prev: int, n: int, k: nat): (r: int)
    requires n > 0 && prev >= -1
    ensures 0 <= r < n || (k == 0 && r == prev)
  {
    if k == 0 then prev else NextIndex(DownPresses(prev, n, k - 1), n)
  }

  /** Presses that stay before the end of the list move one place each. */
  lemma {:induction false} DownPressesWalk(prev: int, n: int, k: nat)
    requires n > 0 && -1 <= prev && prev + k < n
    ensures DownPresses(prev, n, k) == prev + k
  {
    if k > 0 {
      DownPressesWalk(prev, n, k - 1);
    }
  }

  /** Pressing a + b times is pressing a times and then b times. */
  lemma {:induction false} DownPressesSplit(prev: int, n: int, a: nat, b: nat)
    requires n > 0 && prev >= -1
    ensures DownPresses(prev, n, a + b) == DownPresses(DownPresses(prev, n, a), n, b)
  {
    if b > 0 {
      DownPressesSplit(prev, n, a, b - 1);
      assert a + b - 1 == a + (b - 1);
    }
  }

  /** n presses of ArrowDown on n results come back to the starting result. */
  lemma DownCycles(prev: int, n: int)
    requires 0 <= prev < n
    ensures DownPresses(prev, n, n) == prev
  {
    var toEnd := n - 1 - prev;
    DownPressesWalk(prev, n, toEnd);
    DownPressesSplit(prev, n, toEnd, 1);
    assert DownPresses(prev, n, toEnd + 1) == 0;
    DownPressesSplit(prev, n, toEnd + 1, prev);
    DownPressesWalk(0, n, prev);
  }

  /**
   * Finding: the selected index outlives the results it points into.  Typing
   * resets it, but the old results stay on screen until the debounced fetch
   * answers, and ArrowDown still moves through them; when the answer is
   * shorter, the index points past its end and ArrowUp as written then
   * selects no result.
   */
  lemma StaleIndexEscapesAsWritten()
    ensures var old5 := [Hit(1, "a1"), Hit(2, "a2"), Hit(3, "a3"), Hit(4, "a4"), Hit(5, "a5")];
      var s0 := ResultsArrived(Typed(Initial, "a"), old5);
      var s1 := Typed(s0, "ab");
      var s2 := KeyDown(KeyDown(KeyDown(KeyDown(KeyDown(s1, ArrowDown), ArrowDown), ArrowDown), ArrowDown), ArrowDown);
      var s3 := ResultsArrived(s2, [Hit(1, "ab1"), Hit(2, "ab2")]);
      s3.open && s3.selectedIndex == 4 && |s3.results| == 2 &&
      PrevIndexAsWritten(s3.selectedIndex, |s3.results|) == 3 &&
      0 <= PrevIndex(s3.selectedIndex, |s3.results|) < 2
  {
    assert "a"[0] !in JavaScriptSpaces && "ab"[0] !in JavaScriptSpaces;
    var s0 := ResultsArrived(Typed(Initial, "a"), [Hit(1, "a1"), Hit(2, "a2"), Hit(3, "a3"), Hit(4, "a4"), Hit(5, "a5")]);
    assert s0.open && |s0.results| == 5;
    var s1 := Typed(s0, "ab");
    assert s1.open && s1.selectedIndex == -1 && |s1.results| == 5;
  }

  /**
   * The component's state, held in fields as React holds it in `useState`
   * hooks and the `debounceTimer` ref.
   */
  class SearchBarComponent {
    var query: string
    var open: bool
    var selectedIndex: int
    var results: seq<Hit>
    var pendingFetch: Option<string>

    function State(): BarState
      reads this
    {
      BarState(query, open, selectedIndex, results, pendingFetch)
    }

    ghost predicate Valid()
      reads this
    {
      WellFormed(State())
    }

    constructor ()
      ensures State() == Initial && Valid()
    {
      query, open, selectedIndex, results, pendingFetch := "", false, -1, [], None;
    }

    method OnChange(val: string)
      requires Valid()
      modifies this
      ensures Valid() && State() == Typed(old(State()), val)
    {
      query := val;
      open := Trim(JavaScriptSpaces, val) != [];
      selectedIndex := -1;
      pendingFetch := None;
      if Trim(JavaScriptSpaces, val) != [] {
        pendingFetch := Some(val);
      }
    }

    /** The debounce timer fires; returns the value handed to the fetch, if a timer was set. */
    method FireDebounceTimer() returns (fetched: Option<string>)
      requires Valid()
      modifies this
      ensures Valid() && fetched == Fetched(old(State())) && State() == TimerFired(old(State()))
    {
      fetched := pendingFetch;
      pendingFetch := None;
    }

    method ReceiveResults(hits: seq<Hit>)
      requires Valid()
      modifies this
      ensures Valid() && State() == ResultsArrived(old(State()), hits)
    {
      results := hits;
    }

    method HandleKeyDown(key: Key)
      requires Valid()
      modifies this
      ensures Valid() && State() == KeyDown(old(State()), key)
    {
      if !open || |results| == 0 {
        return;
      }
      var n := |results|;
      match key
      case ArrowDown =>
        selectedIndex := NextIndex(selectedIndex, n);
      case ArrowUp =>
        selectedIndex := PrevIndex(selectedIndex, n);
      case Enter =>
        if 0 <= selectedIndex < n {
          query := results[selectedIndex].name;
          open := false;
          selectedIndex := -1;
        }
      case Escape =>
        open := false;
        selectedIndex := -1;
      case OtherKey =>
    }

    method HandleClear()
      requires Valid()
      modifies this
      ensures Valid() && State() == Cleared(old(State()))
    {
      query := "";
      open := false;
      selectedIndex := -1;
    }

    method HandleItemClick(index: int)
      requires Valid() && 0 <= index < |results|
      modifies this
      ensures Valid() && State() == ItemClicked(old(State()), index)
    {
      query := results[index].name;
      open := false;
      selectedIndex := -1;
    }

    method ToggleDropdown()
      requires Valid()
      modifies this
      ensures Valid() && State() == Toggled(old(State()))
    {
      open := !open;
    }

    method OnDocumentClick(insideComponent: bool)
      requires Valid()
      modifies this
      ensures Valid() && State() == DocumentClicked(old(State()), insideComponent)
    {
      if !insideComponent {
        open := false;
      }
    }

    method OnMouseEnter(index: int)
      requires Valid() && 0 <= index < |results|
      modifies this
      ensures Valid() && State() == MouseEntered(old(State()), index)
    {
      selectedIndex := index;
    }

    method OnMouseLeave()
      requires Valid()
      modifies this
      ensures Valid() && State() == MouseLeft(old(State()))
    {
      selectedIndex := -1;
    }
  }
}
