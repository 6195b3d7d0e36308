/** islands/ProfileAnalysis.tsx: resolving the route's `userkey` to a profile id, the page
    state that the profile fetch drives, the score badge colour and the depth selector. */
module ProfileAnalysis {
  import opened Wrappers
  import opened EthosTypes
  import opened Text
  import opened Credibility
  import NetworkVisualization

  /** The network depth shown first. */
  const DefaultDepth: int := 3
  /** The values the depth selector offers, in order. */
  const DepthOptions: seq<int> := [1, 2, 3, 4]

  /** The badge class of each tier. */
  function TierClass(t: Tier): string {
    match t
    case Untrusted => "bg-retro-pink"
    case Questionable => "bg-retro-yellow"
    case Neutral => "bg-gray-700"
    case Reputable => "bg-retro-cyan"
    case Exemplary => "bg-retro-lime"
    case Revered => "bg-retro-purple"
  }

  /** `getScoreColor`: the badge class of the score's tier. */
  function ScoreClass(score: int): (cls: string)
    ensures cls == TierClass(TierOf(score))
  {
    if score < 800 then "bg-retro-pink"
    else if score < 1200 then "bg-retro-yellow"
    else if score < 1600 then "bg-gray-700"
    else if score < 2000 then "bg-retro-cyan"
    else if score < 2400 then "bg-retro-lime"
    else "bg-retro-purple"
  }

  /** The badge uses the swatch of the network legend line for the score, and two scores
      share a badge class exactly when they share a ring colour in the network view. */
  lemma ScoreClassMatchesNetwork(s1: int, s2: int)
    ensures ScoreClass(s1) == NetworkVisualization.Legend[Rank(TierOf(s1))].swatch
    ensures ScoreClass(s1) == ScoreClass(s2) <==> NetworkVisualization.ScoreColor(s1) == NetworkVisualization.ScoreColor(s2)
  {
    NetworkVisualization.ScoreColorIdentifiesTier(s1, s2);
  }

  /** `getScoreColor(profile.actor.score || 0)`: a missing score is coloured as 0, i.e. untrusted. */
  function BadgeClass(score: Option<int>): (cls: string)
    ensures score.None? ==> cls == "bg-retro-pink"
    ensures score.Some? ==> cls == ScoreClass(score.value)
  {
    ScoreClass(score.GetOr(0))
  }

  /** `!isNaN(Number(s))`, restricted to the decimal integers the profile ids are: the empty
      string (Number("") is 0) or an optional sign followed by decimal digits. */
  function IsNumeric(s: string): (b: bool)
    ensures (forall i :: 0 <= i < |s| ==> IsDigit(s[i])) ==> b
    ensures b ==> ':' !in s
  {
    s == "" || (|s| >= 1 && (s[0] == '+' || s[0] == '-' || IsDigit(s[0])) && |s| >= (if IsDigit(s[0]) then 1 else 2)
      && forall i :: 1 <= i < |s| ==> IsDigit(s[i]))
  }

  const ProfilePrefix: string := "profileId:"

  /** The text before the first colon (all of `s` when it has none). */
  function FirstField(s: string): (f: string)
    ensures ':' !in f && StartsWith(s, f)
    ensures |f| == |s| || s[|f|] == ':'
  {
    if |s| == 0 || s[0] == ':' then "" else [s[0]] + FirstField(s[1..])
  }

  /** What `fetchProfile` decides before any request: the id to fetch, or the message to show. */
  datatype Resolution = Fetch(id: string) | Refuse(message: string)

  function InvalidMessage(userkey: string): string {
    "Invalid profile identifier \"" + userkey + "\". Please search for a user from the homepage."
  }

  const UnresolvedMessage: string := "Unable to determine profile ID from userkey"

  /** The decision, stated by cases: a `profileId:` key yields the text up to the next colon,
      unchecked; otherwise a numeric key is used as it is, and anything else is refused with a
      message quoting it; an empty id is refused as unresolvable. */
  function ResolutionOf(userkey: string): (r: Resolution)
    ensures r.Fetch? ==> r.id != "" && ':' !in r.id
  {
    var id :=
      if StartsWith(userkey, ProfilePrefix) then Some(FirstField(userkey[|ProfilePrefix|..]))
      else if IsNumeric(userkey) then Some(userkey)
      else None;
    if id.None? then Refuse(InvalidMessage(userkey))
    else if id.value == "" then Refuse(UnresolvedMessage)
    else
      assert ':' !in id.value by {
        if !StartsWith(userkey, ProfilePrefix) {
          assert forall i :: 0 <= i < |userkey| ==> userkey[i] != ':';
        }
      }
      Fetch(id.value)
  }

  lemma {:induction false} SplitFirstPiece(s: string)
    ensures Split(s, ':')[0] == FirstField(s)
    decreases |s|
  {
    if |s| > 0 && s[0] != ':' {
      SplitFirstPiece(s[1..]);
    }
  }

  /** `userkey.split(":")[1]` on a `profileId:` key is the text after the prefix up to the next colon. */
  lemma SplitSecondPiece(userkey: string)
    requires StartsWith(userkey, ProfilePrefix)
    ensures |Split(userkey, ':')| >= 2
    ensures Split(userkey, ':')[1] == FirstField(userkey[|ProfilePrefix|..])
  {
    var rest := userkey[|ProfilePrefix|..];
    assert userkey == "profileId" + [':'] + rest;
    SplitAtFirst("profileId", ':', rest);
    SplitFirstPiece(rest);
  }

  /** The branch at the top of `fetchProfile`, with its mutable `profileId` local. */
  method ResolveProfileId(userkey: string) returns (r: Resolution)
    ensures r == ResolutionOf(userkey)
  {
    var profileId: Option<string> := None;
    if StartsWith(userkey, "profileId:") {
      SplitSecondPiece(userkey);
      profileId := Some(Split(userkey, ':')[1]);
    } else if IsNumeric(userkey) {
      profileId := Some(userkey);
    } else {
      return Refuse(InvalidMessage(userkey));
    }
    if !Truthy(profileId) {
      return Refuse(UnresolvedMessage);
    }
    return Fetch(profileId.value);
  }

  lemma {:induction false} FirstFieldOfPrefix(id: string, tail: string)
    requires ':' !in id
    requires tail == "" || tail[0] == ':'
    ensures FirstField(id + tail) == id
    decreases |id|
  {
    if |id| == 0 {
      assert id + tail == tail;
    } else {
      assert (id + tail)[1..] == id[1..] + tail;
      FirstFieldOfPrefix(id[1..], tail);
      assert [id[0]] + id[1..] == id;
    }
  }

  /** The prefix check comes first and does not validate the id: `profileId:abc` fetches "abc". */
  lemma PrefixTakesPrecedence(id: string, tail: string)
    requires id != "" && ':' !in id
    requires tail == "" || tail[0] == ':'
    ensures ResolutionOf(ProfilePrefix + id + tail) == Fetch(id)
  {
    var key := ProfilePrefix + id + tail;
    assert key[|ProfilePrefix|..] == id + tail;
    FirstFieldOfPrefix(id, tail);
  }

  /** A `profileId:` key whose id is empty (`"profileId:"`, `"profileId::5"`) is refused as unresolvable. */
  lemma EmptyPrefixedIdRefused(tail: string)
    requires tail == "" || tail[0] == ':'
    ensures ResolutionOf(ProfilePrefix + tail) == Refuse(UnresolvedMessage)
  {
    var key := ProfilePrefix + tail;
    assert key[|ProfilePrefix|..] == tail;
    FirstFieldOfPrefix("", tail);
  }

  /** A key without the prefix is used verbatim exactly when it is numeric and non-empty; a
      non-numeric one is refused with a message that quotes it. */
  lemma UnprefixedKey(userkey: string)
    requires !StartsWith(userkey, ProfilePrefix)
    ensures IsNumeric(userkey) && userkey != "" <==> ResolutionOf(userkey) == Fetch(userkey)
    ensures !IsNumeric(userkey) ==> ResolutionOf(userkey) == Refuse(InvalidMessage(userkey))
    ensures userkey == "" ==> ResolutionOf(userkey) == Refuse(UnresolvedMessage)
  {
  }

  /** The profile fields the page reads. */
  datatype Actor = Actor(name: Option<string>, username: Option<string>, score: Option<int>)

  /** How `/api/profile-enhanced/<id>` answered: the profile, a non-ok response with its
      `error` field, or a thrown error. */
  datatype ProfileResponse = Loaded(actor: Actor) | HttpError(error: Option<string>) | Threw

  datatype PageState = PageState(loading: bool, error: Option<string>, profile: Option<Actor>, selectedDepth: int)

  /** The depth is one the selector offers. */
  predicate Valid(s: PageState) {
    s.selectedDepth in DepthOptions
  }

  function InitialPage(): (s: PageState)
    ensures Valid(s) && s.loading && s.selectedDepth == DefaultDepth
    ensures s.error.None? && s.profile.None?
  {
    PageState(true, None, None, DefaultDepth)
  }

  /** The state `fetchProfile` leaves behind; the response is read only when an id was resolved. */
  function AfterFetch(s: PageState, userkey: string, response: ProfileResponse): (r: PageState)
    ensures !r.loading && r.selectedDepth == s.selectedDepth
    ensures ResolutionOf(userkey).Refuse? ==> r.error == Some(ResolutionOf(userkey).message) && r.profile == s.profile
    ensures ResolutionOf(userkey).Fetch? && response.Loaded? ==> r.profile == Some(response.actor) && r.error == s.error
    ensures !(ResolutionOf(userkey).Fetch? && response.Loaded?) ==> Truthy(r.error) && r.profile == s.profile
  {
    match ResolutionOf(userkey)
    case Refuse(message) => s.(error := Some(message), loading := false)
    case Fetch(_) =>
      match response
      case Loaded(actor) => s.(profile := Some(actor), loading := false)
      case HttpError(e) => s.(error := Some(if Truthy(e) then e.value else "Failed to fetch profile"), loading := false)
      case Threw => s.(error := Some("Failed to load profile data"), loading := false)
  }

  /** What the component renders. */
  datatype Page = LoadingPage | ErrorPage(message: string) | NotFoundPage | ProfilePage(actor: Actor)

  function PageOf(s: PageState): (p: Page)
    ensures p == LoadingPage <==> s.loading
    ensures p.ErrorPage? ==> Truthy(s.error) && p.message == s.error.value
    ensures p.ProfilePage? ==> !Truthy(s.error) && s.profile == Some(p.actor)
    ensures p == NotFoundPage <==> !s.loading && !Truthy(s.error) && s.profile.None?
  {
    if s.loading then LoadingPage
    else if Truthy(s.error) then ErrorPage(s.error.value)
    else if s.profile.None? then NotFoundPage
    else ProfilePage(s.profile.value)
  }

  /** After the fetch the spinner is gone; an unresolvable key shows its message whatever the
      server would have said, since no request is made. */
  lemma RefusedKeyShowsMessage(s: PageState, userkey: string, r1: ProfileResponse, r2: ProfileResponse)
    requires ResolutionOf(userkey).Refuse?
    ensures AfterFetch(s, userkey, r1) == AfterFetch(s, userkey, r2)
    ensures PageOf(AfterFetch(s, userkey, r1)) == ErrorPage(ResolutionOf(userkey).message)
  {
  }

  /** On first load, a resolved key and a good response show the profile; any failure shows an error. */
  lemma FirstFetchOutcome(userkey: string, response: ProfileResponse)
    requires ResolutionOf(userkey).Fetch?
    ensures var p := PageOf(AfterFetch(InitialPage(), userkey, response));
      (response.Loaded? ==> p == ProfilePage(response.actor)) && (!response.Loaded? ==> p.ErrorPage?)
  {
  }

  /** The component's state hooks as fields and `fetchProfile` and the depth selector as methods. */
  class ProfileAnalysisView {
    var loading: bool
    var error: Option<string>
    var profile: Option<Actor>
    var selectedDepth: int

    function Model(): PageState
      reads this
    {
      PageState(loading, error, profile, selectedDepth)
    }

    constructor()
      ensures Model() == InitialPage()
    {
      loading := true;
      error := None;
      profile := None;
      selectedDepth := DefaultDepth;
    }

    /** `fetchProfile`; `requested` is the id put in the request URL, if one was made. */
    method FetchProfile(userkey: string, response: ProfileResponse) returns (requested: Option<string>)
      modifies this
      ensures Model() == AfterFetch(old(Model()), userkey, response)
      ensures requested.Some? <==> ResolutionOf(userkey).Fetch?
      ensures requested.Some? ==> requested.value == ResolutionOf(userkey).id
    {
      loading := true;
      var resolution := ResolveProfileId(userkey);
      match resolution {
        case Refuse(message) =>
          error := Some(message);
          loading := false;
          return None;
        case Fetch(id) =>
          requested := Some(id);
          match response {
            case Loaded(actor) =>
              profile := Some(actor);
            case HttpError(e) =>
              error := Some(if Truthy(e) then e.value else "Failed to fetch profile");
            case Threw =>
              error := Some("Failed to load profile data");
          }
          loading := false;
      }
    }

    /** Picking the `option`-th entry of the depth selector. */
    method SelectDepth(option: nat)
      requires option < |DepthOptions|
      modifies this
      ensures Model() == old(Model()).(selectedDepth := DepthOptions[option])
      ensures 1 <= selectedDepth <= 4
    {
      selectedDepth := DepthOptions[option];
    }
  }
}
