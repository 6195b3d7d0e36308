/** islands/UserSearch.tsx: the typeahead's component state and the transitions that change it.
    The pure functions below specify each transition on a `Screen` value; the class `SearchBox`
    holds the same state in fields and its methods are proved to perform those transitions. */
module UserSearch {
  import opened Wrappers
  import opened EthosTypes
  import opened Text

  /** Queries shorter than this, in UTF-16 code units, never reach the search endpoint. */
  const MinQueryLength: nat := 2

  datatype Key = ArrowDown | ArrowUp | Enter | Escape | OtherKey(name: string)

  /** How the `/api/search-users` request ended: an ok response with its `values` field
      (None when absent), a response that is not ok, or a thrown error. */
  datatype SearchOutcome = Found(values: Option<seq<EthosUser>>) | NotOk | Failed

  /** The component state; `navigation` is the profile id last sent to `/analysis/`. */
  datatype Screen = Screen(
    query: string,
    users: seq<EthosUser>,
    isLoading: bool,
    showDropdown: bool,
    selectedIndex: int,
    navigation: Option<int>)

  /** The highlighted row is a row of the list, or -1 for none. */
  predicate Valid(s: Screen) {
    -1 <= s.selectedIndex < |s.users|
  }

  function Initial(): (s: Screen)
    ensures Valid(s) && s.selectedIndex == -1 && !s.showDropdown
    ensures s.query == "" && s.users == [] && !s.isLoading && s.navigation.None?
  {
    Screen("", [], false, false, -1, None)
  }

  /** The debounced effect's gate: `query.length >= 2`, counted in UTF-16 code units. */
  predicate ShouldSearch(query: string) {
    Utf16Length(query) >= MinQueryLength
  }

  /** Two characters are always enough and none never is; a single character is enough exactly
      when it lies outside the Basic Multilingual Plane (an emoji, say), and a query made only of
      Basic Multilingual Plane characters is searched exactly when it has two or more. */
  lemma ShouldSearchByLength(query: string)
    ensures |query| >= 2 ==> ShouldSearch(query)
    ensures |query| == 0 ==> !ShouldSearch(query)
    ensures |query| == 1 ==> (ShouldSearch(query) <==> !InBmp(query[0]))
    ensures (forall i :: 0 <= i < |query| ==> InBmp(query[i])) ==> (ShouldSearch(query) <==> |query| >= 2)
  {
    if |query| == 1 {
      assert query[1..] == [];
    }
  }

  /** ArrowDown's update: one row further down, stopping at the last row. */
  function NextIndexDown(prev: int, count: nat): (next: int)
    ensures prev < count - 1 ==> next == prev + 1
    ensures prev >= count - 1 ==> next == prev
    ensures -1 <= prev < count ==> -1 <= next < count
  {
    if prev < count - 1 then prev + 1 else prev
  }

  /** ArrowUp's update: one row further up, stopping at the first row; -1 stays -1. */
  function NextIndexUp(prev: int): (next: int)
    ensures prev > 0 ==> next == prev - 1
    ensures prev <= 0 ==> next == prev
    ensures prev >= -1 ==> next >= -1 && next <= prev
  {
    if prev > 0 then prev - 1 else prev
  }

  /** The text put back into the box: `username || displayName || \`user-${id}\``; never empty. */
  function ChosenText(user: EthosUser): (text: string)
    ensures text != ""
    ensures Truthy(user.username) ==> text == user.username.value
    ensures !Truthy(user.username) && Truthy(user.displayName) ==> text == user.displayName.value
    ensures !Truthy(user.username) && !Truthy(user.displayName) ==> StartsWith(text, "user-")
    ensures !Truthy(user.username) && !Truthy(user.displayName) ==> text == "user-" + IntToString(user.id)
  {
    if Truthy(user.username) then user.username.value
    else if Truthy(user.displayName) then user.displayName.value
    else "user-" + IntToString(user.id)
  }

  /** `selectUser`. */
  function Select(s: Screen, user: EthosUser): (r: Screen)
    ensures r.query == ChosenText(user) && !r.showDropdown && r.selectedIndex == -1
    ensures r.navigation == Some(NavigationTarget(user))
    ensures r.users == s.users && r.isLoading == s.isLoading
  {
    s.(query := ChosenText(user), showDropdown := false, selectedIndex := -1,
       navigation := Some(NavigationTarget(user)))
  }

  /** `handleKeyDown`. */
  function KeyDown(s: Screen, key: Key): (r: Screen)
    ensures r.users == s.users && r.isLoading == s.isLoading
    ensures !s.showDropdown || |s.users| == 0 ==> r == s
    ensures Valid(s) ==> Valid(r)
  {
    if !s.showDropdown || |s.users| == 0 then s
    else
      match key
      case ArrowDown => s.(selectedIndex := NextIndexDown(s.selectedIndex, |s.users|))
      case ArrowUp => s.(selectedIndex := NextIndexUp(s.selectedIndex))
      case Enter =>
        if 0 <= s.selectedIndex < |s.users| then Select(s, s.users[s.selectedIndex]) else s
      case Escape => s.(showDropdown := false, selectedIndex := -1)
      case OtherKey(_) => s
  }

  /** The body of the debounced effect, run 300 ms after the query last changed. */
  function SearchRun(s: Screen, outcome: SearchOutcome): (r: Screen)
    ensures Valid(r) && r.selectedIndex == -1
    ensures r.query == s.query && r.navigation == s.navigation
    ensures !ShouldSearch(s.query) ==> r.users == [] && !r.showDropdown && r.isLoading == s.isLoading
    ensures ShouldSearch(s.query) ==> !r.isLoading
  {
    var t :=
      if !ShouldSearch(s.query) then s.(users := [], showDropdown := false)
      else
        var answered :=
          match outcome
          case Found(values) => s.(users := values.GetOr([]), showDropdown := true)
          case NotOk => s
          case Failed => s.(users := []);
        answered.(isLoading := false);
    t.(selectedIndex := -1)
  }

  /** `handleInputChange`. */
  function InputChange(s: Screen, text: string): Screen {
    s.(query := text)
  }

  /** `onFocus`: reopen the dropdown when there is a searched query with results. */
  function Focus(s: Screen): (r: Screen)
    ensures r.showDropdown <==> s.showDropdown || (ShouldSearch(s.query) && |s.users| > 0)
    ensures r.(showDropdown := s.showDropdown) == s
  {
    if ShouldSearch(s.query) && |s.users| > 0 then s.(showDropdown := true) else s
  }

  /** `handleBlur`, 150 ms later: close unless focus moved into the dropdown. */
  function Blur(s: Screen, focusInDropdown: bool): (r: Screen)
    ensures r.showDropdown <==> s.showDropdown && focusInDropdown
    ensures r.(showDropdown := s.showDropdown) == s
  {
    if focusInDropdown then s else s.(showDropdown := false)
  }

  /** The key handler does nothing while the dropdown is hidden or empty. */
  lemma KeyDownNeedsOpenList(s: Screen, key: Key)
    requires !s.showDropdown || |s.users| == 0
    ensures KeyDown(s, key) == s
  {
  }

  /** ArrowDown and ArrowUp move the highlight by at most one row, and it never leaves the list. */
  lemma ArrowsStayInList(s: Screen)
    requires Valid(s) && s.showDropdown && |s.users| > 0
    ensures var d := KeyDown(s, ArrowDown);
      Valid(d) && d.selectedIndex == (if s.selectedIndex < |s.users| - 1 then s.selectedIndex + 1 else s.selectedIndex)
    ensures var u := KeyDown(s, ArrowUp);
      Valid(u) && u.selectedIndex == (if s.selectedIndex > 0 then s.selectedIndex - 1 else s.selectedIndex)
  {
  }

  /** Enter picks the highlighted user, or does nothing when no row is highlighted. */
  lemma EnterSelectsHighlighted(s: Screen)
    requires Valid(s) && s.showDropdown && |s.users| > 0
    ensures s.selectedIndex >= 0 ==> KeyDown(s, Enter) == Select(s, s.users[s.selectedIndex])
    ensures s.selectedIndex == -1 ==> KeyDown(s, Enter) == s
  {
  }

  /** Escape closes the dropdown and clears the highlight. */
  lemma EscapeCloses(s: Screen)
    requires s.showDropdown && |s.users| > 0
    ensures !KeyDown(s, Escape).showDropdown && KeyDown(s, Escape).selectedIndex == -1
    ensures KeyDown(s, Escape).users == s.users && KeyDown(s, Escape).query == s.query
  {
  }

  /** A query shorter than two UTF-16 code units empties and hides the list, whatever a request would
      have answered — the outcome is never consulted, so no request is made. */
  lemma ShortQueryNeverSearches(s: Screen, o1: SearchOutcome, o2: SearchOutcome)
    requires !ShouldSearch(s.query)
    ensures SearchRun(s, o1) == SearchRun(s, o2)
    ensures SearchRun(s, o1).users == [] && !SearchRun(s, o1).showDropdown
  {
  }

  /** A successful search shows exactly the returned users, with nothing highlighted. */
  lemma SearchShowsResults(s: Screen, values: Option<seq<EthosUser>>)
    requires ShouldSearch(s.query)
    ensures var r := SearchRun(s, Found(values));
      r.users == values.GetOr([]) && r.showDropdown && r.selectedIndex == -1 && !r.isLoading
  {
  }

  /** Everything that can happen to the search box. `Click(i)` is a click on row `i` of the dropdown. */
  datatype Event =
    | Input(text: string)
    | Debounced(outcome: SearchOutcome)
    | KeyPress(key: Key)
    | Click(row: nat)
    | Focused
    | Blurred(focusInDropdown: bool)

  /** One event. Only a search run replaces the list, and only a selection navigates. */
  function Step(s: Screen, e: Event): (r: Screen)
    ensures r.users != s.users ==> e.Debounced?
    ensures r.navigation != s.navigation ==> e.KeyPress? || e.Click?
  {
    match e
    case Input(text) => InputChange(s, text)
    case Debounced(outcome) => SearchRun(s, outcome)
    case KeyPress(key) => KeyDown(s, key)
    case Click(row) =>
      if s.showDropdown && row < |s.users| then Select(s, s.users[row]) else s
    case Focused => Focus(s)
    case Blurred(inside) => Blur(s, inside)
  }

  function Run(s: Screen, events: seq<Event>): Screen
    decreases |events|
  {
    if |events| == 0 then s else Run(Step(s, events[0]), events[1..])
  }

  /** Every transition keeps the highlight on a row of the current list or at -1: the list is
      only replaced by a search run, which also resets the highlight. */
  lemma StepKeepsValid(s: Screen, e: Event)
    requires Valid(s)
    ensures Valid(Step(s, e))
  {
    if e.KeyPress? && s.showDropdown && |s.users| > 0 {
      ArrowsStayInList(s);
    }
  }

  lemma {:induction false} SelectionStaysInRange(s: Screen, events: seq<Event>)
    requires Valid(s)
    ensures Valid(Run(s, events))
    decreases |events|
  {
    if |events| > 0 {
      StepKeepsValid(s, events[0]);
      SelectionStaysInRange(Step(s, events[0]), events[1..]);
    }
  }

  /** From the initial state, any sequence of events leaves the highlight in [-1, |users| - 1]. */
  lemma SelectionAlwaysInRange(events: seq<Event>)
    ensures Valid(Run(Initial(), events))
  {
    SelectionStaysInRange(Initial(), events);
  }

  /** The component: the state hooks as fields, the handlers as methods. */
  class SearchBox {
    var query: string
    var users: seq<EthosUser>
    var isLoading: bool
    var showDropdown: bool
    var selectedIndex: int
    var navigation: Option<int>

    function Model(): Screen
      reads this
    {
      Screen(query, users, isLoading, showDropdown, selectedIndex, navigation)
    }

    constructor()
      ensures Model() == Initial()
    {
      query := "";
      users := [];
      isLoading := false;
      showDropdown := false;
      selectedIndex := -1;
      navigation := None;
    }

    method HandleInputChange(text: string)
      modifies this
      ensures Model() == InputChange(old(Model()), text)
    {
      query := text;
    }

    /** The debounced effect; `requested` tells whether the search endpoint was called. */
    method RunSearch(outcome: SearchOutcome) returns (requested: bool)
      modifies this
      ensures requested <==> ShouldSearch(old(query))
      ensures Model() == SearchRun(old(Model()), outcome)
    {
      requested := Utf16Length(query) >= MinQueryLength;
      if requested {
        isLoading := true;
        match outcome {
          case Found(values) =>
            users := values.GetOr([]);
            showDropdown := true;
          case NotOk =>
          case Failed =>
            users := [];
        }
        isLoading := false;
      } else {
        users := [];
        showDropdown := false;
      }
      selectedIndex := -1;
    }

    method SelectUser(user: EthosUser)
      modifies this
      ensures Model() == Select(old(Model()), user)
    {
      query := ChosenText(user);
      showDropdown := false;
      selectedIndex := -1;
      navigation := Some(NavigationTarget(user));
    }

    method HandleKeyDown(key: Key)
      modifies this
      ensures Model() == KeyDown(old(Model()), key)
    {
      if !showDropdown || |users| == 0 {
        return;
      }
      match key {
        case ArrowDown =>
          selectedIndex := if selectedIndex < |users| - 1 then selectedIndex + 1 else selectedIndex;
        case ArrowUp =>
          selectedIndex := if selectedIndex > 0 then selectedIndex - 1 else selectedIndex;
        case Enter =>
          if selectedIndex >= 0 && selectedIndex < |users| {
            SelectUser(users[selectedIndex]);
          }
        case Escape =>
          showDropdown := false;
          selectedIndex := -1;
        case OtherKey(_) =>
      }
    }

    method HandleFocus()
      modifies this
      ensures Model() == Focus(old(Model()))
    {
      if Utf16Length(query) >= MinQueryLength && |users| > 0 {
        showDropdown := true;
      }
    }

    method HandleBlur(focusInDropdown: bool)
      modifies this
      ensures Model() == Blur(old(Model()), focusInDropdown)
    {
      if !focusInDropdown {
        showDropdown := false;
      }
    }
  }
}
