/** routes/api/recent-searches.ts: the global most-recent-first list of explored users.
    The Deno KV store is abstracted away: the handler receives what the read returned and
    whether the write succeeds, and returns the response and the value it wrote. */
module RecentSearchesApi {
  import opened Wrappers
  import opened EthosTypes
  import opened Seqs

  /** `MAX_RECENT_SEARCHES`: how many entries are kept in storage. */
  const MaxRecentSearches: nat := 10
  /** How many entries GET returns. */
  const DisplayCount: nat := 3

  /** `currentSearches.filter(item => item.profileId !== user.profileId)`. */
  function WithoutProfile(list: seq<EthosUser>, pid: JsId): (r: seq<EthosUser>)
    ensures |r| <= |list|
    ensures forall u :: u in r <==> u in list && u.profileId != pid
  {
    if |list| == 0 then []
    else if list[0].profileId != pid then [list[0]] + WithoutProfile(list[1..], pid)
    else WithoutProfile(list[1..], pid)
  }

  lemma {:induction false} WithoutProfileKeepsOrder(list: seq<EthosUser>, pid: JsId)
    ensures IsSubsequence(WithoutProfile(list, pid), list)
  {
    if |list| > 0 {
      WithoutProfileKeepsOrder(list[1..], pid);
      var r := WithoutProfile(list, pid);
      if list[0].profileId != pid {
        assert r[0] == list[0] && r[1..] == WithoutProfile(list[1..], pid);
      }
    }
  }

  /** `result.value || []`: a missing stored list reads as the empty list. */
  function StoredList(stored: Option<seq<EthosUser>>): (list: seq<EthosUser>)
    ensures stored.None? ==> list == []
  {
    stored.GetOr([])
  }

  /** The POST update: `[user, ...filtered].slice(0, MAX_RECENT_SEARCHES)`. */
  function AddRecentSearch(stored: Option<seq<EthosUser>>, user: EthosUser): (updated: seq<EthosUser>)
    ensures 1 <= |updated| <= MaxRecentSearches
    ensures updated[0] == user
    ensures forall i :: 1 <= i < |updated| ==> updated[i].profileId != user.profileId
    ensures |updated| == Min(MaxRecentSearches, 1 + |WithoutProfile(StoredList(stored), user.profileId)|)
  {
    var filtered := WithoutProfile(StoredList(stored), user.profileId);
    var updated := ([user] + filtered)[..Min(MaxRecentSearches, 1 + |filtered|)];
    assert forall i :: 1 <= i < |updated| ==> updated[i] == filtered[i - 1];
    assert forall i :: 1 <= i < |updated| ==> updated[i] in filtered;
    updated
  }

  /** The old entries that survive keep their relative order, and truncation only drops from the tail. */
  lemma AddRecentSearchKeepsOrder(stored: Option<seq<EthosUser>>, user: EthosUser)
    ensures var updated := AddRecentSearch(stored, user);
      var filtered := WithoutProfile(StoredList(stored), user.profileId);
      && updated[1..] == filtered[..|updated| - 1]
      && IsSubsequence(updated[1..], StoredList(stored))
  {
    var updated := AddRecentSearch(stored, user);
    var filtered := WithoutProfile(StoredList(stored), user.profileId);
    assert updated[1..] == filtered[..|updated| - 1];
    WithoutProfileKeepsOrder(StoredList(stored), user.profileId);
    SubsequencePrefix(filtered, StoredList(stored), |updated| - 1);
  }

  /** No two entries share a `profileId`. */
  predicate DistinctIds(list: seq<EthosUser>) {
    forall i, j :: 0 <= i < j < |list| ==> list[i].profileId != list[j].profileId
  }

  lemma {:induction false} WithoutProfileKeepsDistinct(list: seq<EthosUser>, pid: JsId)
    requires DistinctIds(list)
    ensures DistinctIds(WithoutProfile(list, pid))
  {
    if |list| > 0 {
      assert DistinctIds(list[1..]) by {
        forall i, j | 0 <= i < j < |list[1..]| ensures list[1..][i].profileId != list[1..][j].profileId {
          assert list[1..][i] == list[i + 1] && list[1..][j] == list[j + 1];
        }
      }
      WithoutProfileKeepsDistinct(list[1..], pid);
      var rest := WithoutProfile(list[1..], pid);
      if list[0].profileId != pid {
        forall u | u in rest ensures u.profileId != list[0].profileId {
          var k :| 0 <= k < |list[1..]| && list[1..][k] == u;
          assert list[k + 1] == u;
        }
        var r := [list[0]] + rest;
        forall i, j | 0 <= i < j < |r| ensures r[i].profileId != r[j].profileId {
          assert r[j] == rest[j - 1];
          if i > 0 { assert r[i] == rest[i - 1]; } else { assert rest[j - 1] in rest; }
        }
      }
    }
  }

  /** The update keeps the list free of duplicate profile ids. */
  lemma AddRecentSearchKeepsDistinct(stored: Option<seq<EthosUser>>, user: EthosUser)
    requires DistinctIds(StoredList(stored))
    ensures DistinctIds(AddRecentSearch(stored, user))
  {
    var filtered := WithoutProfile(StoredList(stored), user.profileId);
    WithoutProfileKeepsDistinct(StoredList(stored), user.profileId);
    var updated := AddRecentSearch(stored, user);
    forall i, j | 0 <= i < j < |updated| ensures updated[i].profileId != updated[j].profileId {
      if i > 0 {
        assert updated[i] == filtered[i - 1] && updated[j] == filtered[j - 1];
      }
    }
  }

  lemma {:induction false} WithoutProfileNoMatch(list: seq<EthosUser>, pid: JsId)
    requires forall i :: 0 <= i < |list| ==> list[i].profileId != pid
    ensures WithoutProfile(list, pid) == list
  {
    if |list| > 0 {
      WithoutProfileNoMatch(list[1..], pid);
      assert [list[0]] + list[1..] == list;
    }
  }

  /** Posting the same user twice in a row leaves the list as the first post did. */
  lemma AddRecentSearchIdempotent(stored: Option<seq<EthosUser>>, user: EthosUser)
    ensures AddRecentSearch(Some(AddRecentSearch(stored, user)), user) == AddRecentSearch(stored, user)
  {
    var once := AddRecentSearch(stored, user);
    var filtered := WithoutProfile(StoredList(stored), user.profileId);
    assert once[1..] == filtered[..|once| - 1];
    WithoutProfileNoMatch(once[1..], user.profileId);
    assert once == [once[0]] + once[1..];
    assert WithoutProfile(once, user.profileId) == once[1..];
  }

  /** GET: `recentSearches.slice(0, 3)`. */
  function TopRecentSearches(stored: Option<seq<EthosUser>>): (top: seq<EthosUser>)
    ensures |top| == Min(DisplayCount, |StoredList(stored)|)
    ensures forall i :: 0 <= i < |top| ==> top[i] == StoredList(stored)[i]
  {
    StoredList(stored)[..Min(DisplayCount, |StoredList(stored)|)]
  }

  /** An HTTP method the handler has no branch for. */
  type OtherVerb = v: string | v != "GET" && v != "POST" witness "PUT"

  /** The HTTP method and, for POST, the parsed body (None when `req.json()` fails). */
  datatype Request = GetRequest | PostRequest(body: Option<EthosUser>) | OtherRequest(verb: OtherVerb)

  /** What `kv.get` yields: the stored value (None for a missing key), or a thrown error. */
  datatype KvRead = KvValue(value: Option<seq<EthosUser>>) | KvFailure

  datatype Body =
    | Added(success: bool, count: nat)
    | UserList(users: seq<EthosUser>)
    | ErrorBody(error: string)
    | PlainText(text: string)

  datatype Response = Response(status: nat, body: Body)

  /** The handler's response and the list it wrote to the store, if any. */
  datatype Outcome = Outcome(response: Response, written: Option<seq<EthosUser>>)

  function Handle(req: Request, read: KvRead, writeSucceeds: bool): (out: Outcome)
    ensures req.OtherRequest? ==> out.response == Response(405, PlainText("Method not allowed")) && out.written.None?
    ensures req.GetRequest? ==> out.response.status == 200 && out.written.None?
    ensures req.GetRequest? && read.KvFailure? ==> out.response.body == UserList([])
    ensures req.GetRequest? && read.KvValue? ==> out.response.body == UserList(TopRecentSearches(read.value))
    ensures req.PostRequest? ==>
      if req.body.Some? && read.KvValue? && writeSucceeds then
        var updated := AddRecentSearch(read.value, req.body.value);
        out.written == Some(updated) && out.response == Response(200, Added(true, |updated|))
      else
        out.written.None? && out.response == Response(500, ErrorBody("Failed to add recent search"))
  {
    match req
    case PostRequest(body) =>
      if body.None? || read.KvFailure? || !writeSucceeds then
        Outcome(Response(500, ErrorBody("Failed to add recent search")), None)
      else
        var updated := AddRecentSearch(read.value, body.value);
        Outcome(Response(200, Added(true, |updated|)), Some(updated))
    case GetRequest =>
      var list := if read.KvFailure? then [] else TopRecentSearches(read.value);
      Outcome(Response(200, UserList(list)), None)
    case OtherRequest(_) =>
      Outcome(Response(405, PlainText("Method not allowed")), None)
  }
}
