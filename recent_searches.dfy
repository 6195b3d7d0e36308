/** islands/RecentSearches.tsx: the "recently explored" strip on the home page — loading the
    list, the per-user card (name lines, score badge, click target) and the empty guard. */
module RecentSearches {
  import opened Wrappers
  import opened EthosTypes
  import opened Text
  import opened Credibility
  import NetworkVisualization
  import ProfileAnalysis

  /** `getScoreColor`: the swatch of the network legend line the score falls in. */
  function ScoreClass(score: int): (cls: string)
    ensures cls == NetworkVisualization.Legend[Rank(TierOf(score))].swatch
  {
    if score < 800 then "bg-retro-pink"
    else if score < 1200 then "bg-retro-yellow"
    else if score < 1600 then "bg-gray-700"
    else if score < 2000 then "bg-retro-cyan"
    else if score < 2400 then "bg-retro-lime"
    else "bg-retro-purple"
  }

  /** The copy here and the one in the analysis page give every score the same class. */
  lemma ScoreClassAgrees(score: int)
    ensures ScoreClass(score) == ProfileAnalysis.ScoreClass(score)
  {
    ProfileAnalysis.ScoreClassMatchesNetwork(score, score);
  }

  /** `navigateToProfile`: the page a click opens. */
  function ProfilePath(user: EthosUser): (path: string)
    ensures StartsWith(path, "/analysis/")
    ensures user.profileId.Num? && user.profileId.n != 0 ==> path == "/analysis/" + IntToString(user.profileId.n)
    ensures !(user.profileId.Num? && user.profileId.n != 0) ==> path == "/analysis/" + IntToString(user.id)
  {
    "/analysis/" + IntToString(NavigationTarget(user))
  }

  /** A profile id that is missing, null or 0 is falsy, so the click falls back to the user id. */
  lemma FalsyProfileIdFallsBack(user: EthosUser)
    requires user.profileId == Undefined || user.profileId == Null || user.profileId == Num(0)
    ensures ProfilePath(user) == "/analysis/" + IntToString(user.id)
  {
  }

  /** One rendered card. */
  datatype Card = Card(
    title: Option<string>,
    subtitle: Option<string>,
    badge: Option<(int, string)>,
    path: string)

  /** The score badge is shown whenever a score is present, 0 included. */
  predicate ShowScoreBadge(user: EthosUser) {
    user.score.Some?
  }

  /** `user.displayName && user.username !== user.displayName`, the guard as written. */
  function ShowDisplayNameLine(user: EthosUser): (shown: bool)
    ensures shown ==> Truthy(user.displayName)
    ensures shown && !Truthy(user.username) ==> OrElse(user.username, user.displayName) == user.displayName
  {
    Truthy(user.displayName) && user.username != user.displayName
  }

  /** The guard as written repeats the name: without a username the title already is the
      display name, yet the second line shows it again. */
  lemma DisplayNameShownTwice()
    ensures var user := EthosUser(7, Num(7), Some("Bob"), None, None);
      ShowDisplayNameLine(user) && OrElse(user.username, user.displayName) == user.displayName
  {
  }

  /** The second line as evidently intended: the display name, when it is not already the title. */
  predicate ShowSecondLine(user: EthosUser) {
    Truthy(user.displayName) && OrElse(user.username, user.displayName) != user.displayName
  }

  /** The correction changes nothing while a username is present, and never repeats the title. */
  lemma SecondLineCorrection(user: EthosUser)
    ensures Truthy(user.username) ==> (ShowSecondLine(user) <==> ShowDisplayNameLine(user))
    ensures ShowSecondLine(user) ==> ShowDisplayNameLine(user)
  {
  }

  function CardOf(user: EthosUser): (c: Card)
    ensures c.title == OrElse(user.username, user.displayName)
    ensures c.subtitle.Some? <==> ShowSecondLine(user)
    ensures c.subtitle.Some? ==> Truthy(c.subtitle) && c.subtitle == user.displayName && c.title != c.subtitle
    ensures c.badge.Some? <==> user.score.Some?
    ensures c.badge.Some? ==> c.badge.value == (user.score.value, ScoreClass(user.score.value))
    ensures c.path == ProfilePath(user)
  {
    Card(
      OrElse(user.username, user.displayName),
      if ShowSecondLine(user) then user.displayName else None,
      if ShowScoreBadge(user) then Some((user.score.value, ScoreClass(user.score.value))) else None,
      ProfilePath(user))
  }

  /** The component's output: nothing at all for an empty list, otherwise one card per user in order. */
  function Render(list: seq<EthosUser>): (cards: Option<seq<Card>>)
    ensures cards.None? <==> |list| == 0
    ensures cards.Some? ==> |cards.value| == |list| && forall i :: 0 <= i < |list| ==> cards.value[i] == CardOf(list[i])
  {
    if |list| == 0 then None else Some(seq(|list|, i requires 0 <= i < |list| => CardOf(list[i])))
  }

  /** `loadRecentSearches`: `stored` is what `localStorage.getItem` returned, `parsed` what
      `JSON.parse` made of it (None when it threw). The list changes only on a successful parse
      of a non-empty stored string. */
  function Load(current: seq<EthosUser>, stored: Option<string>, parsed: Option<seq<EthosUser>>): (list: seq<EthosUser>)
    ensures !Truthy(stored) || parsed.None? ==> list == current
    ensures Truthy(stored) && parsed.Some? ==> list == parsed.value
  {
    if Truthy(stored) && parsed.Some? then parsed.value else current
  }

  /** A missing, empty or unreadable stored value leaves the initial empty list, so nothing renders. */
  lemma FailedLoadRendersNothing(stored: Option<string>, parsed: Option<seq<EthosUser>>)
    requires !Truthy(stored) || parsed.None?
    ensures Render(Load([], stored, parsed)).None?
  {
  }
}
