/**
 * The response projections: the from_orm overrides that build a response
 * model from a persisted record whose relations are already loaded.
 *
 * A record is a value here, with each relation the projection reads as an
 * optional nested record: reading a name off a relation that is not there
 * fails the projection instead of yielding a default. Building the response
 * model validates it like any other model, which matters for
 * MethodOreEfficiency, whose ranges a stored value can break.
 */
module Responses {
  import opened Validation
  import opened Requests

  /** The outcome of a projection: the response model, a relation that was not loaded, or the model's own validation errors. */
  datatype Projection<+T> = Built(value: T) | MissingRelation(relation: string) | Rejected(errors: ErrorList)

  // ===== User =====

  datatype UserScopeRecord = UserScopeRecord(scope: string, created: Option<Timestamp>)

  datatype UserRecord = UserRecord(
    id: int, name: string, mail: string, isGoogle: bool, isActive: bool,
    created: Timestamp, updated: Timestamp, lastLogin: Option<Timestamp>, scopes: seq<UserScopeRecord>)

  datatype User = User(
    id: int, name: string, mail: string, isGoogle: bool, isActive: bool,
    created: Timestamp, updated: Timestamp, lastLogin: Option<Timestamp>, scopes: seq<string>)

  /** The scope names of a user's scope records, one per record, in the records' order. */
  function ScopeNames(scopes: seq<UserScopeRecord>): (names: seq<string>)
    ensures |names| == |scopes|
    ensures forall i | 0 <= i < |scopes| :: names[i] == scopes[i].scope
  {
    if scopes == [] then [] else ScopeNames(scopes[..|scopes| - 1]) + [scopes[|scopes| - 1].scope]
  }

  /** The names of two runs of records are the names of the first run, then those of the second. */
  lemma {:induction false} ScopeNamesConcat(a: seq<UserScopeRecord>, b: seq<UserScopeRecord>)
    ensures ScopeNames(a + b) == ScopeNames(a) + ScopeNames(b)
  {
    var names := ScopeNames(a + b);
    forall i | 0 <= i < |names| ensures names[i] == (ScopeNames(a) + ScopeNames(b))[i] {
      if i < |a| {
        assert (a + b)[i] == a[i];
      } else {
        assert (a + b)[i] == b[i - |a|];
      }
    }
  }

  /** A scope is listed exactly when some record of the user carries it. */
  lemma ScopeListed(scopes: seq<UserScopeRecord>, scope: string)
    ensures scope in ScopeNames(scopes) <==> exists i | 0 <= i < |scopes| :: scopes[i].scope == scope
  {
    var names := ScopeNames(scopes);
    if scope in names {
      var i :| 0 <= i < |names| && names[i] == scope;
      assert scopes[i].scope == scope;
    }
  }

  /** User.from_orm: every field copied from the record, scopes flattened to their names. */
  function UserFromOrm(user: UserRecord): (r: User)
    ensures r.id == user.id && r.name == user.name && r.mail == user.mail
    ensures r.isGoogle == user.isGoogle && r.isActive == user.isActive
    ensures r.created == user.created && r.updated == user.updated && r.lastLogin == user.lastLogin
    ensures r.scopes == ScopeNames(user.scopes)
  {
    User(user.id, user.name, user.mail, user.isGoogle, user.isActive,
      user.created, user.updated, user.lastLogin, ScopeNames(user.scopes))
  }

  // ===== Friendship =====

  /** A persisted friendship with both users loaded; user_id and friend_id are its own columns. */
  datatype FriendshipRecord = FriendshipRecord(
    userId: int, user: Option<UserRecord>, friendId: int, friend: Option<UserRecord>,
    created: Timestamp, confirmed: Option<Timestamp>)

  datatype Friendship = Friendship(
    userId: int, userName: string, friendId: int, friendName: string,
    created: Timestamp, confirmed: Option<Timestamp>)

  /**
   * Friendship.from_orm: the names come from the loaded user and friend, the
   * ids and timestamps from the friendship itself. The user is read first.
   */
  function FriendshipFromOrm(friendship: FriendshipRecord): (r: Projection<Friendship>)
    ensures r.Built? <==> friendship.user.Some? && friendship.friend.Some?
    ensures r.Built? ==> && r.value.userName == friendship.user.value.name
                         && r.value.friendName == friendship.friend.value.name
    ensures r.Built? ==> && r.value.userId == friendship.userId && r.value.friendId == friendship.friendId
                         && r.value.created == friendship.created && r.value.confirmed == friendship.confirmed
    ensures friendship.user.None? ==> r == MissingRelation("user")
    ensures friendship.user.Some? && friendship.friend.None? ==> r == MissingRelation("friend")
  {
    match (friendship.user, friendship.friend)
    case (None, _) => MissingRelation("user")
    case (Some(_), None) => MissingRelation("friend")
    case (Some(user), Some(friend)) =>
      Built(Friendship(friendship.userId, user.name, friendship.friendId, friend.name,
        friendship.created, friendship.confirmed))
  }

  // ===== Ore efficiencies =====

  datatype OreRecord = OreRecord(id: int, name: string, created: Timestamp, updated: Timestamp)

  datatype StationOreEfficiencyRecord = StationOreEfficiencyRecord(efficiencyBonus: real, oreId: int, ore: Option<OreRecord>)

  /** StationOreEfficiency.from_orm: the bonus and ore id copied, the ore name read off the loaded ore. */
  function StationOreEfficiencyFromOrm(obj: StationOreEfficiencyRecord): (r: Projection<StationOreEfficiency>)
    ensures r.Built? <==> obj.ore.Some?
    ensures r.Built? ==> r.value == StationOreEfficiency(obj.efficiencyBonus, obj.oreId, Given(obj.ore.value.name))
    ensures obj.ore.None? ==> r == MissingRelation("ore")
  {
    match obj.ore
    case None => MissingRelation("ore")
    case Some(ore) =>
      var payload := StationOreEfficiencyPayload(Given(obj.efficiencyBonus), Given(obj.oreId), Given(ore.name));
      match ValidateStationOreEfficiency(payload)
      case Valid(m) => Built(m)
      case Invalid(errs) => Rejected(errs)
  }

  datatype MethodOreEfficiencyRecord =
    MethodOreEfficiencyRecord(efficiency: real, duration: real, oreId: int, ore: Option<OreRecord>)

  /**
   * MethodOreEfficiency.from_orm: the values copied and the ore name read off
   * the loaded ore, then validated like a request: a stored efficiency
   * outside (0, 1] or a duration that is not positive rejects the projection.
   */
  function MethodOreEfficiencyFromOrm(obj: MethodOreEfficiencyRecord): (r: Projection<MethodOreEfficiency>)
    ensures r.Built? <==> obj.ore.Some? && 0.0 < obj.efficiency <= 1.0 && obj.duration > 0.0
    ensures r.Built? ==> r.value == MethodOreEfficiency(obj.efficiency, obj.duration, obj.oreId, Given(obj.ore.value.name))
    ensures obj.ore.None? ==> r == MissingRelation("ore")
    ensures r.Rejected? ==> obj.ore.Some? && r.errors == Errors(ValidateMethodOreEfficiency(
      MethodOreEfficiencyPayload(Given(obj.efficiency), Given(obj.duration), Given(obj.oreId), Given(obj.ore.value.name))))
  {
    match obj.ore
    case None => MissingRelation("ore")
    case Some(ore) =>
      var payload := MethodOreEfficiencyPayload(Given(obj.efficiency), Given(obj.duration), Given(obj.oreId), Given(ore.name));
      match ValidateMethodOreEfficiency(payload)
      case Valid(m) => Built(m)
      case Invalid(errs) => Rejected(errs)
  }

  /** A stored efficiency of 0 or less, with its ore loaded, is rejected with the error under efficiency. */
  lemma StoredEfficiencyOutOfRange(obj: MethodOreEfficiencyRecord)
    requires obj.ore.Some? && obj.efficiency <= 0.0
    ensures MethodOreEfficiencyFromOrm(obj).Rejected?
    ensures FieldError([Key(Efficiency)], NotGreaterThan(0.0)) in MethodOreEfficiencyFromOrm(obj).errors
  {
    var payload := MethodOreEfficiencyPayload(Given(obj.efficiency), Given(obj.duration), Given(obj.oreId), Given(obj.ore.value.name));
    MethodOreEfficiencyLocatesRangeError(payload);
  }
}
