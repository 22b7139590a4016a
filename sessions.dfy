/**
 * The mining-session and friendship request schemas: MiningSessionCreate,
 * MiningSessionUpdate and FriendshipUpdate.
 */
module SessionRequests {
  import opened Validation
  import opened Requests

  // ===== MiningSessionCreate =====

  datatype MiningSessionCreatePayload = MiningSessionCreatePayload(creatorId: Field<int>, name: Field<string>)
  datatype MiningSessionCreate = MiningSessionCreate(creatorId: int, name: string)

  predicate MiningSessionCreateFieldOk(p: MiningSessionCreatePayload, f: FieldName) {
    if f == CreatorId then p.creatorId.Given?
    else if f == Name then GivenWithin(p.name, NameLength)
    else true
  }

  predicate MiningSessionCreateAccepts(p: MiningSessionCreatePayload) {
    p.creatorId.Given? && GivenWithin(p.name, NameLength)
  }

  function MiningSessionCreateErrors(p: MiningSessionCreatePayload): (errs: seq<FieldError>)
    ensures errs == [] <==> MiningSessionCreateAccepts(p)
  {
    Collect(CreatorId, Require(p.creatorId), Collect(Name, RequiredStr(ShortText, p.name), []))
  }

  /** A session create with no error validates to its creator id and name. */
  function ValidateMiningSessionCreate(p: MiningSessionCreatePayload): (r: Checked<MiningSessionCreate>)
    ensures r.Valid? <==> MiningSessionCreateAccepts(p)
    ensures r.Valid? ==> r.value == MiningSessionCreate(p.creatorId.value, p.name.value)
    ensures r.Invalid? ==> r.errors == MiningSessionCreateErrors(p)
  {
    var errs := MiningSessionCreateErrors(p);
    if errs == [] then Valid(MiningSessionCreate(p.creatorId.value, p.name.value)) else Invalid(errs)
  }

  /** Every field that breaks its rule is reported under its key, and no other field is. */
  lemma MiningSessionCreateReportsViolations(p: MiningSessionCreatePayload, f: FieldName)
    ensures Reports(MiningSessionCreateErrors(p), Key(f)) <==> !MiningSessionCreateFieldOk(p, f)
  {
    var name := RequiredStr(ShortText, p.name);
    CollectReports(CreatorId, Require(p.creatorId), Collect(Name, name, []), Key(f));
    CollectReports(Name, name, [], Key(f));
  }

  /** The name rule of a session create: over 50 characters it is rejected as too long, within 50 it is not reported. */
  lemma MiningSessionCreateNameRule(p: MiningSessionCreatePayload)
    requires p.name.Given?
    ensures |p.name.value| > NameLength ==> FieldError([Key(Name)], TooLong(NameLength)) in MiningSessionCreateErrors(p)
    ensures |p.name.value| <= NameLength ==> !Reports(MiningSessionCreateErrors(p), Key(Name))
  {
    MiningSessionCreateReportsViolations(p, Name);
    if |p.name.value| > NameLength {
      var name := RequiredStr(ShortText, p.name);
      CollectKeepsOwn(Name, name, [], TooLong(NameLength));
    }
  }

  // ===== MiningSessionUpdate =====

  datatype MiningSessionUpdatePayload = MiningSessionUpdatePayload(
    name: Field<string>, archived: Field<Timestamp>, yieldScu: Field<real>, yieldUec: Field<real>,
    usersInvited: Field<seq<Option<RelatedPayload>>>)

  datatype MiningSessionUpdate = MiningSessionUpdate(
    name: Field<string>, archived: Field<Timestamp>, yieldScu: Field<real>, yieldUec: Field<real>,
    usersInvited: Field<seq<Related>>)

  predicate MiningSessionUpdateAccepts(p: MiningSessionUpdatePayload) {
    WithinIfGiven(p.name, NameLength) && (p.usersInvited.Given? ==> AllRelatedAccepted(p.usersInvited.value))
  }

  /** The errors of a session update: the name's, then the invited list's; archived and the yields cannot fail. */
  function MiningSessionUpdateErrors(p: MiningSessionUpdatePayload): (errs: seq<FieldError>)
    ensures errs == [] <==> MiningSessionUpdateAccepts(p)
  {
    Collect(Name, OptionalStr(ShortText, p.name),
      Collect(UsersInvited, OptionalItems(p.usersInvited, ValidateRelated), []))
  }

  /**
   * A session update with no error keeps every field's state as sent; an
   * invited list, when sent, holds no null and each reference's id and name.
   */
  function ValidateMiningSessionUpdate(p: MiningSessionUpdatePayload): (r: Checked<MiningSessionUpdate>)
    ensures r.Valid? <==> MiningSessionUpdateAccepts(p)
    ensures r.Valid? ==> && r.value.name == p.name && r.value.archived == p.archived
                         && r.value.yieldScu == p.yieldScu && r.value.yieldUec == p.yieldUec
    ensures r.Valid? ==> (r.value.usersInvited.Given? <==> p.usersInvited.Given?)
    ensures r.Valid? ==> (r.value.usersInvited.Null? <==> p.usersInvited.Null?)
    ensures r.Valid? && p.usersInvited.Given? ==> |r.value.usersInvited.value| == |p.usersInvited.value|
    ensures r.Valid? && p.usersInvited.Given? ==> forall i | 0 <= i < |p.usersInvited.value| ::
      var item := p.usersInvited.value[i].value;
      r.value.usersInvited.value[i] == Related(item.id.value, item.name.value)
    ensures r.Invalid? ==> r.errors == MiningSessionUpdateErrors(p)
  {
    var errs := MiningSessionUpdateErrors(p);
    if errs == [] then
      var invited := OptionalItems(p.usersInvited, ValidateRelated);
      Valid(MiningSessionUpdate(p.name, p.archived, p.yieldScu, p.yieldUec, invited.value))
    else Invalid(errs)
  }

  /** A session update reports under name or users_invited exactly when that field breaks its rule, and nowhere else. */
  lemma MiningSessionUpdateReportsViolations(p: MiningSessionUpdatePayload, f: FieldName)
    ensures Reports(MiningSessionUpdateErrors(p), Key(f)) <==>
      || (f == Name && !WithinIfGiven(p.name, NameLength))
      || (f == UsersInvited && !(p.usersInvited.Given? ==> AllRelatedAccepted(p.usersInvited.value)))
  {
    var name := OptionalStr(ShortText, p.name);
    var invited := OptionalItems(p.usersInvited, ValidateRelated);
    CollectReports(Name, name, Collect(UsersInvited, invited, []), Key(f));
    CollectReports(UsersInvited, invited, [], Key(f));
  }

  /** Under users_invited, a session update reports exactly the positions of the null references and of those missing an id or a name. */
  lemma MiningSessionUpdateReportsItems(p: MiningSessionUpdatePayload, at: LocPart)
    ensures Reports(ErrorsAt(MiningSessionUpdateErrors(p), Key(UsersInvited)), at) <==>
      p.usersInvited.Given? && at.Index? && at.index < |p.usersInvited.value|
      && (p.usersInvited.value[at.index].None? || !RelatedAccepts(p.usersInvited.value[at.index].value))
  {
    var name := OptionalStr(ShortText, p.name);
    var invited := OptionalItems(p.usersInvited, ValidateRelated);
    CollectErrorsAt(Name, name, Collect(UsersInvited, invited, []), Key(UsersInvited));
    CollectErrorsAt(UsersInvited, invited, [], Key(UsersInvited));
    assert ErrorsAt(MiningSessionUpdateErrors(p), Key(UsersInvited)) == Errors(invited);
    ItemsReportedAt(p.usersInvited, ValidateRelated, Errors(invited), at);
  }

  /** A null reference in users_invited is reported at users_invited, its position, as none-not-allowed. */
  lemma MiningSessionUpdateNullInvited(p: MiningSessionUpdatePayload, i: nat)
    requires p.usersInvited.Given? && i < |p.usersInvited.value| && p.usersInvited.value[i].None?
    ensures FieldError([Key(UsersInvited), Index(i)], NoneNotAllowed) in MiningSessionUpdateErrors(p)
  {
    var name := OptionalStr(ShortText, p.name);
    var invited := OptionalItems(p.usersInvited, ValidateRelated);
    NullItemReported(p.usersInvited.value, ValidateRelated, i);
    CollectKeepsNested(UsersInvited, invited, [], FieldError([Index(i)], NoneNotAllowed));
    assert [Key(UsersInvited)] + [Index(i)] == [Key(UsersInvited), Index(i)];
  }

  // ===== FriendshipUpdate =====

  datatype FriendshipUpdatePayload = FriendshipUpdatePayload(
    userId: Field<int>, userName: Field<string>, friendId: Field<int>, friendName: Field<string>,
    confirmed: Field<Timestamp>, name: Field<string>)

  datatype FriendshipUpdate = FriendshipUpdate(
    userId: int, userName: Field<string>, friendId: int, friendName: Field<string>,
    confirmed: Field<Timestamp>, name: Field<string>)

  /** Both ids are required; the three names, when given, are within 50 characters; confirmed cannot fail. */
  predicate FriendshipUpdateFieldOk(p: FriendshipUpdatePayload, f: FieldName) {
    if f == UserId then p.userId.Given?
    else if f == UserName then WithinIfGiven(p.userName, NameLength)
    else if f == FriendId then p.friendId.Given?
    else if f == FriendName then WithinIfGiven(p.friendName, NameLength)
    else if f == Name then WithinIfGiven(p.name, NameLength)
    else true
  }

  predicate FriendshipUpdateAccepts(p: FriendshipUpdatePayload) {
    && p.userId.Given? && WithinIfGiven(p.userName, NameLength)
    && p.friendId.Given? && WithinIfGiven(p.friendName, NameLength)
    && WithinIfGiven(p.name, NameLength)
  }

  function FriendshipUpdateErrors(p: FriendshipUpdatePayload): (errs: seq<FieldError>)
    ensures errs == [] <==> FriendshipUpdateAccepts(p)
  {
    Collect(UserId, Require(p.userId),
    Collect(UserName, OptionalStr(ShortText, p.userName),
    Collect(FriendId, Require(p.friendId),
    Collect(FriendName, OptionalStr(ShortText, p.friendName),
    Collect(Name, OptionalStr(ShortText, p.name), [])))))
  }

  /** A friendship update with no error holds both ids and keeps the optional fields' states as sent. */
  function ValidateFriendshipUpdate(p: FriendshipUpdatePayload): (r: Checked<FriendshipUpdate>)
    ensures r.Valid? <==> FriendshipUpdateAccepts(p)
    ensures r.Valid? ==> r.value == FriendshipUpdate(
      p.userId.value, p.userName, p.friendId.value, p.friendName, p.confirmed, p.name)
    ensures r.Invalid? ==> r.errors == FriendshipUpdateErrors(p)
  {
    var errs := FriendshipUpdateErrors(p);
    if errs == [] then
      Valid(FriendshipUpdate(p.userId.value, p.userName, p.friendId.value, p.friendName, p.confirmed, p.name))
    else Invalid(errs)
  }

  /** The fields under whose key the FriendshipUpdate errors report: those whose own check failed. */
  lemma FriendshipUpdateOutcomes(p: FriendshipUpdatePayload, f: FieldName)
    ensures Reports(FriendshipUpdateErrors(p), Key(f)) <==>
      || (f == UserId && !p.userId.Given?)
      || (f == UserName && OptionalStr(ShortText, p.userName).Invalid?)
      || (f == FriendId && !p.friendId.Given?)
      || (f == FriendName && OptionalStr(ShortText, p.friendName).Invalid?)
      || (f == Name && OptionalStr(ShortText, p.name).Invalid?)
  {
    var userId := Require(p.userId);
    var userName := OptionalStr(ShortText, p.userName);
    var friendId := Require(p.friendId);
    var friendName := OptionalStr(ShortText, p.friendName);
    var name := OptionalStr(ShortText, p.name);
    var e5 := Collect(Name, name, []);
    var e4 := Collect(FriendName, friendName, e5);
    var e3 := Collect(FriendId, friendId, e4);
    var e2 := Collect(UserName, userName, e3);
    CollectReports(UserId, userId, e2, Key(f));
    CollectReports(UserName, userName, e3, Key(f));
    CollectReports(FriendId, friendId, e4, Key(f));
    CollectReports(FriendName, friendName, e5, Key(f));
    CollectReports(Name, name, [], Key(f));
  }

  /** Every field that breaks its rule is reported under its key, and no other field is. */
  lemma FriendshipUpdateReportsViolations(p: FriendshipUpdatePayload, f: FieldName)
    ensures Reports(FriendshipUpdateErrors(p), Key(f)) <==> !FriendshipUpdateFieldOk(p, f)
  {
    FriendshipUpdateOutcomes(p, f);
  }
}
