/** The record shapes of types/ethos.ts that the modelled code reads. Fields the
    modelled code never looks at (avatar, description, stats, ...) are omitted. */
module EthosTypes {
  import opened Wrappers

  /** A numeric field declared `number | null` and optional: absent, null, or a number.
      JavaScript's `===` on these is this datatype's equality. */
  datatype JsId = Undefined | Null | Num(n: int)

  /** `EthosUser`: `id` is always present; everything else may be missing. */
  datatype EthosUser = EthosUser(
    id: int,
    profileId: JsId,
    displayName: Option<string>,
    username: Option<string>,
    score: Option<int>)

  /** `NetworkNode` as the graph endpoint returns it. */
  datatype NetworkNode = NetworkNode(
    id: string,
    profileId: int,
    username: Option<string>,
    displayName: Option<string>,
    score: Option<int>,
    level: int)

  /** `NetworkEdge` (its `type` is always "invitation"). */
  datatype NetworkEdge = NetworkEdge(source: string, target: string)

  /** JavaScript truthiness of an optional string: present and non-empty. */
  predicate Truthy(s: Option<string>) {
    s.Some? && s.value != ""
  }

  /** `a || b` on optional strings; the result is `b` whenever `a` is falsy. */
  function OrElse(a: Option<string>, b: Option<string>): Option<string> {
    if Truthy(a) then a else b
  }

  /** `user.profileId || user.id`: the profile id when it is a non-zero number, otherwise the user id. */
  function NavigationTarget(user: EthosUser): (target: int)
    ensures user.profileId.Num? && user.profileId.n != 0 ==> target == user.profileId.n
    ensures !(user.profileId.Num? && user.profileId.n != 0) ==> target == user.id
  {
    match user.profileId
    case Num(n) => if n != 0 then n else user.id
    case _ => user.id
  }
}
