/**
 * The user schemas: UserCreate, UserUpdate and UserQuery, and the
 * passwords_match validator the first two share.
 *
 * Field validators run in declaration order, and a validator sees the map
 * of the values that passed before it. passwords_match therefore compares
 * password_confirm only with a password that is in that map: one that
 * failed its own constraint is not there, and one left out of an update
 * is there with its default, None.
 */
module UserRequests {
  import opened MailAddress
  import opened Validation
  import opened Requests

  // ===== passwords_match =====

  /** The mismatch error passwords_match raises, located at password_confirm. */
  predicate MismatchReported(errs: seq<FieldError>) {
    FieldError([Key(PasswordConfirm)], PasswordsDoNotMatch) in errs
  }

  /**
   * passwords_match: the confirmation is compared with the password only
   * when the password is among the values validated before it.
   */
  function PasswordsMatch(confirm: Option<string>, values: map<FieldName, Option<string>>): (r: Option<ErrorKind>)
    ensures r.Some? <==> Password in values && values[Password] != confirm
    ensures r.Some? ==> r.value == PasswordsDoNotMatch
  {
    if Password in values && confirm != values[Password] then Some(PasswordsDoNotMatch) else None
  }

  /** The values validated so far, after field f: a field that validated is recorded under its name, a failed one is not. */
  function Record(values: map<FieldName, Option<string>>, f: FieldName, c: Checked<Option<string>>): (r: map<FieldName, Option<string>>)
    ensures r.Keys == values.Keys + (if c.Valid? then {f} else {})
    ensures c.Valid? ==> r[f] == c.value
  {
    if c.Valid? then values[f := c.value] else values
  }

  /** A required string field as it stands in the values. */
  function Required(c: Checked<string>): Checked<Option<string>> {
    if c.Valid? then Valid(Some(c.value)) else Invalid(c.errors)
  }

  /** An optional string field as it stands in the values: left out or null, it holds the default None. */
  function Optional(c: Checked<Field<string>>): Checked<Option<string>> {
    if c.Valid? then Valid(AsOption(c.value)) else Invalid(c.errors)
  }

  /** The values validated when password_confirm is reached: name, mail and password, those that passed. */
  function ValuesBeforeConfirm(name: Checked<Option<string>>, mail: Checked<Option<string>>, password: Checked<Option<string>>)
    : (values: map<FieldName, Option<string>>)
    ensures Password in values <==> password.Valid?
    ensures password.Valid? ==> values[Password] == password.value
  {
    Record(Record(Record(map[], Name, name), Mail, mail), Password, password)
  }

  /** The confirmation on UserCreate: passwords_match runs once the value has passed its own constraint. */
  function ConfirmRequired(confirm: Checked<string>, values: map<FieldName, Option<string>>): (r: Checked<string>)
    requires confirm.Invalid? ==> |confirm.errors| == 1 && !CrossField(confirm.errors[0].kind)
    ensures r.Valid? <==> confirm.Valid? && PasswordsMatch(Some(confirm.value), values).None?
    ensures r.Valid? ==> r == confirm
    ensures FieldError([], PasswordsDoNotMatch) in Errors(r)
      <==> confirm.Valid? && PasswordsMatch(Some(confirm.value), values).Some?
  {
    if confirm.Invalid? then confirm
    else match PasswordsMatch(Some(confirm.value), values)
      case None => confirm
      case Some(k) => Fail(k)
  }

  /**
   * The confirmation on UserUpdate: a confirmation left out is not validated
   * at all; a null one skips the length check but still meets passwords_match
   * as None; a given one meets it once within its length.
   */
  function ConfirmOptional(confirm: Checked<Field<string>>, values: map<FieldName, Option<string>>): (r: Checked<Field<string>>)
    requires confirm.Invalid? ==> |confirm.errors| == 1 && !CrossField(confirm.errors[0].kind)
    ensures r.Valid? <==> confirm.Valid? && (confirm.value.Absent? || PasswordsMatch(AsOption(confirm.value), values).None?)
    ensures r.Valid? ==> r == confirm
    ensures FieldError([], PasswordsDoNotMatch) in Errors(r)
      <==> confirm.Valid? && !confirm.value.Absent? && PasswordsMatch(AsOption(confirm.value), values).Some?
  {
    if confirm.Invalid? || confirm.value.Absent? then confirm
    else match PasswordsMatch(AsOption(confirm.value), values)
      case None => confirm
      case Some(k) => Fail(k)
  }

  // ===== UserCreate =====

  datatype UserCreatePayload = UserCreatePayload(
    name: Field<string>, mail: Field<string>, password: Field<string>, passwordConfirm: Field<string>,
    isGoogle: Field<bool>, isActive: Field<bool>, scopes: Field<seq<Option<string>>>)

  datatype UserCreate = UserCreate(
    name: string, mail: string, password: string, passwordConfirm: string,
    isGoogle: bool, isActive: bool, scopes: Field<seq<string>>)

  /** passwords_match fails on UserCreate: both passwords passed their own length check, and they differ. */
  predicate CreateMismatch(p: UserCreatePayload) {
    && GivenWithin(p.password, TextLength)
    && GivenWithin(p.passwordConfirm, TextLength)
    && p.passwordConfirm.value != p.password.value
  }

  predicate UserCreateAccepts(p: UserCreatePayload) {
    && GivenWithin(p.name, NameLength)
    && GivenWithin(p.mail, TextLength) && MailPattern(p.mail.value)
    && GivenWithin(p.password, TextLength)
    && GivenWithin(p.passwordConfirm, TextLength) && !CreateMismatch(p)
    && p.isGoogle.Given?
    && p.isActive.Given?
    && (p.scopes.Given? ==> AllStrOk(ShortText, p.scopes.value))
  }

  /** The password_confirm outcome on UserCreate, stated on the payload. */
  lemma UserCreateConfirmation(p: UserCreatePayload)
    ensures var values := ValuesBeforeConfirm(
        Required(RequiredStr(ShortText, p.name)), Required(RequiredStr(MailText, p.mail)),
        Required(RequiredStr(LongText, p.password)));
      var confirm := ConfirmRequired(RequiredStr(LongText, p.passwordConfirm), values);
      && (confirm.Valid? <==> GivenWithin(p.passwordConfirm, TextLength) && !CreateMismatch(p))
      && (confirm.Valid? ==> confirm.value == p.passwordConfirm.value)
      && (FieldError([], PasswordsDoNotMatch) in Errors(confirm) <==> CreateMismatch(p))
  {
  }

  /** The errors of the seven UserCreate outcomes, field by field in declaration order. */
  function CollectUserCreate(
    name: Checked<string>, mail: Checked<string>, password: Checked<string>, confirm: Checked<string>,
    isGoogle: Checked<bool>, isActive: Checked<bool>, scopes: Checked<Field<seq<string>>>): (errs: seq<FieldError>)
    ensures errs == [] <==> && name.Valid? && mail.Valid? && password.Valid? && confirm.Valid?
                            && isGoogle.Valid? && isActive.Valid? && scopes.Valid?
  {
    Collect(Name, name,
    Collect(Mail, mail,
    Collect(Password, password,
    Collect(PasswordConfirm, confirm,
    Collect(IsGoogle, isGoogle,
    Collect(IsActive, isActive,
    Collect(Scopes, scopes, [])))))))
  }

  /** The collected UserCreate errors report under `at` exactly when `at` is the key of a field whose outcome failed. */
  lemma CollectUserCreateReports(
    name: Checked<string>, mail: Checked<string>, password: Checked<string>, confirm: Checked<string>,
    isGoogle: Checked<bool>, isActive: Checked<bool>, scopes: Checked<Field<seq<string>>>, at: LocPart)
    ensures Reports(CollectUserCreate(name, mail, password, confirm, isGoogle, isActive, scopes), at) <==>
      || (at == Key(Name) && name.Invalid?)
      || (at == Key(Mail) && mail.Invalid?)
      || (at == Key(Password) && password.Invalid?)
      || (at == Key(PasswordConfirm) && confirm.Invalid?)
      || (at == Key(IsGoogle) && isGoogle.Invalid?)
      || (at == Key(IsActive) && isActive.Invalid?)
      || (at == Key(Scopes) && scopes.Invalid?)
  {
    var e7 := Collect(Scopes, scopes, []);
    var e6 := Collect(IsActive, isActive, e7);
    var e5 := Collect(IsGoogle, isGoogle, e6);
    var e4 := Collect(PasswordConfirm, confirm, e5);
    var e3 := Collect(Password, password, e4);
    var e2 := Collect(Mail, mail, e3);
    CollectReports(Name, name, e2, at);
    CollectReports(Mail, mail, e3, at);
    CollectReports(Password, password, e4, at);
    CollectReports(PasswordConfirm, confirm, e5, at);
    CollectReports(IsGoogle, isGoogle, e6, at);
    CollectReports(IsActive, isActive, e7, at);
    CollectReports(Scopes, scopes, [], at);
  }

  /** An error located at a field's key is among the collected UserCreate errors exactly when that field's outcome raised it. */
  lemma CollectUserCreateHas(
    name: Checked<string>, mail: Checked<string>, password: Checked<string>, confirm: Checked<string>,
    isGoogle: Checked<bool>, isActive: Checked<bool>, scopes: Checked<Field<seq<string>>>, g: FieldName, k: ErrorKind)
    ensures FieldError([Key(g)], k) in CollectUserCreate(name, mail, password, confirm, isGoogle, isActive, scopes) <==>
      || (g == Name && FieldError([], k) in Errors(name))
      || (g == Mail && FieldError([], k) in Errors(mail))
      || (g == Password && FieldError([], k) in Errors(password))
      || (g == PasswordConfirm && FieldError([], k) in Errors(confirm))
      || (g == IsGoogle && FieldError([], k) in Errors(isGoogle))
      || (g == IsActive && FieldError([], k) in Errors(isActive))
      || (g == Scopes && FieldError([], k) in Errors(scopes))
  {
    var e7 := Collect(Scopes, scopes, []);
    var e6 := Collect(IsActive, isActive, e7);
    var e5 := Collect(IsGoogle, isGoogle, e6);
    var e4 := Collect(PasswordConfirm, confirm, e5);
    var e3 := Collect(Password, password, e4);
    var e2 := Collect(Mail, mail, e3);
    CollectHas(Name, name, e2, g, k);
    CollectHas(Mail, mail, e3, g, k);
    CollectHas(Password, password, e4, g, k);
    CollectHas(PasswordConfirm, confirm, e5, g, k);
    CollectHas(IsGoogle, isGoogle, e6, g, k);
    CollectHas(IsActive, isActive, e7, g, k);
    CollectHas(Scopes, scopes, [], g, k);
  }

  /** The seven field outcomes of a UserCreate payload, password_confirm checked against the values before it. */
  function UserCreateOutcomes(p: UserCreatePayload)
    : (Checked<string>, Checked<string>, Checked<string>, Checked<string>, Checked<bool>, Checked<bool>, Checked<Field<seq<string>>>)
  {
    var name := RequiredStr(ShortText, p.name);
    var mail := RequiredStr(MailText, p.mail);
    var password := RequiredStr(LongText, p.password);
    var values := ValuesBeforeConfirm(Required(name), Required(mail), Required(password));
    var confirm := ConfirmRequired(RequiredStr(LongText, p.passwordConfirm), values);
    (name, mail, password, confirm, Require(p.isGoogle), Require(p.isActive), OptionalStrItems(ShortText, p.scopes))
  }

  /** The errors of a UserCreate payload: each field checked in declaration order, password_confirm against the values before it. */
  function UserCreateErrors(p: UserCreatePayload): (errs: seq<FieldError>)
    ensures errs == [] <==> UserCreateAccepts(p)
  {
    var o := UserCreateOutcomes(p);
    UserCreateConfirmation(p);
    CollectUserCreate(o.0, o.1, o.2, o.3, o.4, o.5, o.6)
  }

  /**
   * Under `at`, the UserCreate errors report exactly the keys of the fields
   * whose own outcome failed.
   */
  lemma UserCreateReportsAt(p: UserCreatePayload, at: LocPart)
    ensures var o := UserCreateOutcomes(p);
      Reports(UserCreateErrors(p), at) <==>
      || (at == Key(Name) && o.0.Invalid?)
      || (at == Key(Mail) && o.1.Invalid?)
      || (at == Key(Password) && o.2.Invalid?)
      || (at == Key(PasswordConfirm) && o.3.Invalid?)
      || (at == Key(IsGoogle) && o.4.Invalid?)
      || (at == Key(IsActive) && o.5.Invalid?)
      || (at == Key(Scopes) && o.6.Invalid?)
  {
    var o := UserCreateOutcomes(p);
    CollectUserCreateReports(o.0, o.1, o.2, o.3, o.4, o.5, o.6, at);
  }

  /** An error located at a field's key is among the UserCreate errors exactly when that field's own outcome raised it. */
  lemma UserCreateHas(p: UserCreatePayload, g: FieldName, k: ErrorKind)
    ensures var o := UserCreateOutcomes(p);
      FieldError([Key(g)], k) in UserCreateErrors(p) <==>
      || (g == Name && FieldError([], k) in Errors(o.0))
      || (g == Mail && FieldError([], k) in Errors(o.1))
      || (g == Password && FieldError([], k) in Errors(o.2))
      || (g == PasswordConfirm && FieldError([], k) in Errors(o.3))
      || (g == IsGoogle && FieldError([], k) in Errors(o.4))
      || (g == IsActive && FieldError([], k) in Errors(o.5))
      || (g == Scopes && FieldError([], k) in Errors(o.6))
  {
    var o := UserCreateOutcomes(p);
    CollectUserCreateHas(o.0, o.1, o.2, o.3, o.4, o.5, o.6, g, k);
  }

  /** A payload with no field error validates to its own values; a sent scope list holds the sent scopes. */
  function ValidateUserCreate(p: UserCreatePayload): (r: Checked<UserCreate>)
    ensures r.Valid? <==> UserCreateAccepts(p)
    ensures r.Valid? ==> && r.value.name == p.name.value && r.value.mail == p.mail.value
                         && r.value.password == p.password.value && r.value.passwordConfirm == p.passwordConfirm.value
                         && r.value.isGoogle == p.isGoogle.value && r.value.isActive == p.isActive.value
    ensures r.Valid? ==> KeptItems(r.value.scopes, p.scopes)
    ensures r.Invalid? ==> r.errors == UserCreateErrors(p)
  {
    var errs := UserCreateErrors(p);
    if errs == [] then
      Valid(UserCreate(p.name.value, p.mail.value, p.password.value, p.passwordConfirm.value,
        p.isGoogle.value, p.isActive.value, OptionalStrItems(ShortText, p.scopes).value))
    else Invalid(errs)
  }

  /** name is reported exactly when it breaks its length rule. */
  lemma UserCreateReportsName(p: UserCreatePayload)
    ensures Reports(UserCreateErrors(p), Key(Name)) <==> !GivenWithin(p.name, NameLength)
  {
    UserCreateReportsAt(p, Key(Name));
  }

  /** mail is reported exactly when it breaks its length bound or the address pattern. */
  lemma UserCreateReportsMail(p: UserCreatePayload)
    ensures Reports(UserCreateErrors(p), Key(Mail)) <==> !(GivenWithin(p.mail, TextLength) && MailPattern(p.mail.value))
  {
    UserCreateReportsAt(p, Key(Mail));
  }

  /** password is reported exactly when it breaks its length bound. */
  lemma UserCreateReportsPassword(p: UserCreatePayload)
    ensures Reports(UserCreateErrors(p), Key(Password)) <==> !GivenWithin(p.password, TextLength)
  {
    UserCreateReportsAt(p, Key(Password));
  }

  /** password_confirm is reported exactly when it breaks its length bound or passwords_match fails. */
  lemma UserCreateReportsConfirm(p: UserCreatePayload)
    ensures Reports(UserCreateErrors(p), Key(PasswordConfirm)) <==> !(GivenWithin(p.passwordConfirm, TextLength) && !CreateMismatch(p))
  {
    UserCreateReportsAt(p, Key(PasswordConfirm));
    UserCreateConfirmation(p);
  }

  /** is_google and is_active are reported exactly when they are missing or null. */
  lemma UserCreateReportsFlags(p: UserCreatePayload)
    ensures Reports(UserCreateErrors(p), Key(IsGoogle)) <==> !p.isGoogle.Given?
    ensures Reports(UserCreateErrors(p), Key(IsActive)) <==> !p.isActive.Given?
  {
    UserCreateReportsAt(p, Key(IsGoogle));
    UserCreateReportsAt(p, Key(IsActive));
  }

  /** scopes is reported exactly when a sent list holds a null or a scope over 50 characters. */
  lemma UserCreateReportsScopes(p: UserCreatePayload)
    ensures Reports(UserCreateErrors(p), Key(Scopes)) <==> !(p.scopes.Given? ==> AllStrOk(ShortText, p.scopes.value))
  {
    UserCreateReportsAt(p, Key(Scopes));
  }

  /** No key outside the schema's fields is ever reported. */
  lemma UserCreateReportsNoOtherKey(p: UserCreatePayload, f: FieldName)
    requires f !in {Name, Mail, Password, PasswordConfirm, IsGoogle, IsActive, Scopes}
    ensures !Reports(UserCreateErrors(p), Key(f))
  {
    UserCreateReportsAt(p, Key(f));
  }

  /** A null scope is reported at scopes, its position, as none-not-allowed. */
  lemma UserCreateNullScope(p: UserCreatePayload, i: nat)
    requires p.scopes.Given? && i < |p.scopes.value| && p.scopes.value[i].None?
    ensures FieldError([Key(Scopes), Index(i)], NoneNotAllowed) in UserCreateErrors(p)
  {
    var o := UserCreateOutcomes(p);
    var e := FieldError([Key(Scopes), Index(i)], NoneNotAllowed);
    NullItemReported(p.scopes.value, StrCheck(ShortText), i);
    CollectKeepsNested(Scopes, o.6, [], FieldError([Index(i)], NoneNotAllowed));
    assert [Key(Scopes)] + [Index(i)] == [Key(Scopes), Index(i)];
    var e7 := Collect(Scopes, o.6, []);
    var e6 := Collect(IsActive, o.5, e7);
    var e5 := Collect(IsGoogle, o.4, e6);
    var e4 := Collect(PasswordConfirm, o.3, e5);
    var e3 := Collect(Password, o.2, e4);
    var e2 := Collect(Mail, o.1, e3);
    assert e in e7;
    assert e in Collect(Name, o.0, e2);
  }

  /** passwords_match reports a mismatch on UserCreate exactly when both passwords are within 250 characters and differ. */
  lemma UserCreateMismatch(p: UserCreatePayload)
    ensures MismatchReported(UserCreateErrors(p)) <==> CreateMismatch(p)
  {
    UserCreateHas(p, PasswordConfirm, PasswordsDoNotMatch);
    UserCreateConfirmation(p);
  }

  /** Equal passwords never meet the mismatch error. */
  lemma UserCreateEqualPasswords(p: UserCreatePayload)
    requires p.password == p.passwordConfirm
    ensures !MismatchReported(UserCreateErrors(p))
  {
    UserCreateMismatch(p);
  }

  /** A password over 250 characters fails on its own and is not compared: no mismatch is raised. */
  lemma UserCreateLongPasswordNotCompared(p: UserCreatePayload)
    requires p.password.Given? && |p.password.value| > TextLength
    ensures Reports(UserCreateErrors(p), Key(Password))
    ensures !MismatchReported(UserCreateErrors(p))
  {
    UserCreateMismatch(p);
    UserCreateReportsPassword(p);
  }

  /** The name rule on UserCreate: a name over 50 characters is rejected as too long, one within 50 is not reported. */
  lemma UserCreateNameRule(p: UserCreatePayload)
    requires p.name.Given?
    ensures |p.name.value| > NameLength ==> FieldError([Key(Name)], TooLong(NameLength)) in UserCreateErrors(p)
    ensures |p.name.value| <= NameLength ==> !Reports(UserCreateErrors(p), Key(Name))
  {
    UserCreateReportsName(p);
    UserCreateHas(p, Name, TooLong(NameLength));
  }

  /**
   * The mail rule on UserCreate: over 250 characters it is rejected as too
   * long whatever its form; within 250 characters, a mail outside the
   * pattern is rejected as a pattern mismatch.
   */
  lemma UserCreateMailRule(p: UserCreatePayload)
    requires p.mail.Given?
    ensures |p.mail.value| > TextLength ==> FieldError([Key(Mail)], TooLong(TextLength)) in UserCreateErrors(p)
    ensures |p.mail.value| <= TextLength && !MailPattern(p.mail.value)
      ==> FieldError([Key(Mail)], PatternMismatch) in UserCreateErrors(p)
    ensures !Reports(UserCreateErrors(p), Key(Mail)) <==> |p.mail.value| <= TextLength && MailPattern(p.mail.value)
  {
    UserCreateReportsMail(p);
    UserCreateHas(p, Mail, TooLong(TextLength));
    UserCreateHas(p, Mail, PatternMismatch);
  }

  // ===== UserUpdate =====

  /** An update as sent: every field may be left out or null; each sent scope is a value or null. */
  datatype UserUpdatePayload = UserUpdatePayload(
    name: Field<string>, mail: Field<string>, password: Field<string>, passwordConfirm: Field<string>,
    isGoogle: Field<bool>, isActive: Field<bool>, scopes: Field<seq<Option<string>>>)

  /** A validated update: every field keeps its three states. */
  datatype UserUpdate = UserUpdate(
    name: Field<string>, mail: Field<string>, password: Field<string>, passwordConfirm: Field<string>,
    isGoogle: Field<bool>, isActive: Field<bool>, scopes: Field<seq<string>>)

  /** A validated update holds the payload as sent: left-out fields stay left out, nulls stay null, sent values are kept. */
  ghost predicate UpdateKept(u: UserUpdate, p: UserUpdatePayload) {
    && u.name == p.name && u.mail == p.mail && u.password == p.password && u.passwordConfirm == p.passwordConfirm
    && u.isGoogle == p.isGoogle && u.isActive == p.isActive && KeptItems(u.scopes, p.scopes)
  }

  /**
   * passwords_match fails on UserUpdate: a confirmation was sent (null counts
   * as None), both values passed their length check, and the confirmation
   * differs from the password as recorded, None when the password was left
   * out or null.
   */
  predicate UpdateMismatch(p: UserUpdatePayload) {
    && !p.passwordConfirm.Absent?
    && WithinIfGiven(p.passwordConfirm, TextLength)
    && WithinIfGiven(p.password, TextLength)
    && AsOption(p.passwordConfirm) != AsOption(p.password)
  }

  predicate UserUpdateAccepts(p: UserUpdatePayload) {
    && WithinIfGiven(p.name, NameLength)
    && WithinIfGiven(p.mail, TextLength) && (p.mail.Given? ==> MailPattern(p.mail.value))
    && WithinIfGiven(p.password, TextLength)
    && WithinIfGiven(p.passwordConfirm, TextLength) && !UpdateMismatch(p)
    && (p.scopes.Given? ==> AllStrOk(ShortText, p.scopes.value))
  }

  /** The password_confirm outcome on UserUpdate, stated on the payload. */
  lemma UserUpdateConfirmation(p: UserUpdatePayload)
    ensures var values := ValuesBeforeConfirm(
        Optional(OptionalStr(ShortText, p.name)), Optional(OptionalStr(MailText, p.mail)),
        Optional(OptionalStr(LongText, p.password)));
      var confirm := ConfirmOptional(OptionalStr(LongText, p.passwordConfirm), values);
      && (confirm.Valid? <==> WithinIfGiven(p.passwordConfirm, TextLength) && !UpdateMismatch(p))
      && (confirm.Valid? ==> confirm.value == p.passwordConfirm)
      && (FieldError([], PasswordsDoNotMatch) in Errors(confirm) <==> UpdateMismatch(p))
  {
  }

  /** The errors of the five UserUpdate outcomes that can fail, field by field in declaration order. */
  function CollectUserUpdate(
    name: Checked<Field<string>>, mail: Checked<Field<string>>, password: Checked<Field<string>>,
    confirm: Checked<Field<string>>, scopes: Checked<Field<seq<string>>>): (errs: seq<FieldError>)
    ensures errs == [] <==> name.Valid? && mail.Valid? && password.Valid? && confirm.Valid? && scopes.Valid?
  {
    Collect(Name, name,
    Collect(Mail, mail,
    Collect(Password, password,
    Collect(PasswordConfirm, confirm,
    Collect(Scopes, scopes, [])))))
  }

  /** The collected UserUpdate errors report under `at` exactly when `at` is the key of a field whose outcome failed. */
  lemma CollectUserUpdateReports(
    name: Checked<Field<string>>, mail: Checked<Field<string>>, password: Checked<Field<string>>,
    confirm: Checked<Field<string>>, scopes: Checked<Field<seq<string>>>, at: LocPart)
    ensures Reports(CollectUserUpdate(name, mail, password, confirm, scopes), at) <==>
      || (at == Key(Name) && name.Invalid?)
      || (at == Key(Mail) && mail.Invalid?)
      || (at == Key(Password) && password.Invalid?)
      || (at == Key(PasswordConfirm) && confirm.Invalid?)
      || (at == Key(Scopes) && scopes.Invalid?)
  {
    var e5 := Collect(Scopes, scopes, []);
    var e4 := Collect(PasswordConfirm, confirm, e5);
    var e3 := Collect(Password, password, e4);
    var e2 := Collect(Mail, mail, e3);
    CollectReports(Name, name, e2, at);
    CollectReports(Mail, mail, e3, at);
    CollectReports(Password, password, e4, at);
    CollectReports(PasswordConfirm, confirm, e5, at);
    CollectReports(Scopes, scopes, [], at);
  }

  /** An error located at a field's key is among the collected UserUpdate errors exactly when that field's outcome raised it. */
  lemma CollectUserUpdateHas(
    name: Checked<Field<string>>, mail: Checked<Field<string>>, password: Checked<Field<string>>,
    confirm: Checked<Field<string>>, scopes: Checked<Field<seq<string>>>, g: FieldName, k: ErrorKind)
    ensures FieldError([Key(g)], k) in CollectUserUpdate(name, mail, password, confirm, scopes) <==>
      || (g == Name && FieldError([], k) in Errors(name))
      || (g == Mail && FieldError([], k) in Errors(mail))
      || (g == Password && FieldError([], k) in Errors(password))
      || (g == PasswordConfirm && FieldError([], k) in Errors(confirm))
      || (g == Scopes && FieldError([], k) in Errors(scopes))
  {
    var e5 := Collect(Scopes, scopes, []);
    var e4 := Collect(PasswordConfirm, confirm, e5);
    var e3 := Collect(Password, password, e4);
    var e2 := Collect(Mail, mail, e3);
    CollectHas(Name, name, e2, g, k);
    CollectHas(Mail, mail, e3, g, k);
    CollectHas(Password, password, e4, g, k);
    CollectHas(PasswordConfirm, confirm, e5, g, k);
    CollectHas(Scopes, scopes, [], g, k);
  }

  /** The five UserUpdate outcomes that can fail, password_confirm checked against the values before it. */
  function UserUpdateOutcomes(p: UserUpdatePayload)
    : (Checked<Field<string>>, Checked<Field<string>>, Checked<Field<string>>, Checked<Field<string>>, Checked<Field<seq<string>>>)
  {
    var name := OptionalStr(ShortText, p.name);
    var mail := OptionalStr(MailText, p.mail);
    var password := OptionalStr(LongText, p.password);
    var values := ValuesBeforeConfirm(Optional(name), Optional(mail), Optional(password));
    var confirm := ConfirmOptional(OptionalStr(LongText, p.passwordConfirm), values);
    (name, mail, password, confirm, OptionalStrItems(ShortText, p.scopes))
  }

  /**
   * The errors of a UserUpdate payload: each field checked in declaration
   * order, password_confirm against the values before it; is_google and
   * is_active cannot fail.
   */
  function UserUpdateErrors(p: UserUpdatePayload): (errs: seq<FieldError>)
    ensures errs == [] <==> UserUpdateAccepts(p)
  {
    var o := UserUpdateOutcomes(p);
    UserUpdateConfirmation(p);
    CollectUserUpdate(o.0, o.1, o.2, o.3, o.4)
  }

  /** Under `at`, the UserUpdate errors report exactly the keys of the fields whose own outcome failed. */
  lemma UserUpdateReportsAt(p: UserUpdatePayload, at: LocPart)
    ensures var o := UserUpdateOutcomes(p);
      Reports(UserUpdateErrors(p), at) <==>
      || (at == Key(Name) && o.0.Invalid?)
      || (at == Key(Mail) && o.1.Invalid?)
      || (at == Key(Password) && o.2.Invalid?)
      || (at == Key(PasswordConfirm) && o.3.Invalid?)
      || (at == Key(Scopes) && o.4.Invalid?)
  {
    var o := UserUpdateOutcomes(p);
    CollectUserUpdateReports(o.0, o.1, o.2, o.3, o.4, at);
  }

  /** An error located at a field's key is among the UserUpdate errors exactly when that field's own outcome raised it. */
  lemma UserUpdateHas(p: UserUpdatePayload, g: FieldName, k: ErrorKind)
    ensures var o := UserUpdateOutcomes(p);
      FieldError([Key(g)], k) in UserUpdateErrors(p) <==>
      || (g == Name && FieldError([], k) in Errors(o.0))
      || (g == Mail && FieldError([], k) in Errors(o.1))
      || (g == Password && FieldError([], k) in Errors(o.2))
      || (g == PasswordConfirm && FieldError([], k) in Errors(o.3))
      || (g == Scopes && FieldError([], k) in Errors(o.4))
  {
    var o := UserUpdateOutcomes(p);
    CollectUserUpdateHas(o.0, o.1, o.2, o.3, o.4, g, k);
  }

  /** An update with no field error validates to the payload as sent: left-out fields stay left out, nulls stay null. */
  function ValidateUserUpdate(p: UserUpdatePayload): (r: Checked<UserUpdate>)
    ensures r.Valid? <==> UserUpdateAccepts(p)
    ensures r.Valid? ==> UpdateKept(r.value, p)
    ensures r.Invalid? ==> r.errors == UserUpdateErrors(p)
  {
    var errs := UserUpdateErrors(p);
    if errs == [] then
      Valid(UserUpdate(p.name, p.mail, p.password, p.passwordConfirm, p.isGoogle, p.isActive,
        OptionalStrItems(ShortText, p.scopes).value))
    else Invalid(errs)
  }

  /** name is reported exactly when it breaks its length rule. */
  lemma UserUpdateReportsName(p: UserUpdatePayload)
    ensures Reports(UserUpdateErrors(p), Key(Name)) <==> !WithinIfGiven(p.name, NameLength)
  {
    UserUpdateReportsAt(p, Key(Name));
  }

  /** mail is reported exactly when it breaks its length bound or the address pattern. */
  lemma UserUpdateReportsMail(p: UserUpdatePayload)
    ensures Reports(UserUpdateErrors(p), Key(Mail)) <==> !(WithinIfGiven(p.mail, TextLength) && (p.mail.Given? ==> MailPattern(p.mail.value)))
  {
    UserUpdateReportsAt(p, Key(Mail));
  }

  /** password is reported exactly when it breaks its length bound. */
  lemma UserUpdateReportsPassword(p: UserUpdatePayload)
    ensures Reports(UserUpdateErrors(p), Key(Password)) <==> !WithinIfGiven(p.password, TextLength)
  {
    UserUpdateReportsAt(p, Key(Password));
  }

  /** password_confirm is reported exactly when it breaks its length bound or passwords_match fails. */
  lemma UserUpdateReportsConfirm(p: UserUpdatePayload)
    ensures Reports(UserUpdateErrors(p), Key(PasswordConfirm)) <==> !(WithinIfGiven(p.passwordConfirm, TextLength) && !UpdateMismatch(p))
  {
    UserUpdateReportsAt(p, Key(PasswordConfirm));
    UserUpdateConfirmation(p);
  }

  /** scopes is reported exactly when a sent list holds a null or a scope over 50 characters. */
  lemma UserUpdateReportsScopes(p: UserUpdatePayload)
    ensures Reports(UserUpdateErrors(p), Key(Scopes)) <==> !(p.scopes.Given? ==> AllStrOk(ShortText, p.scopes.value))
  {
    UserUpdateReportsAt(p, Key(Scopes));
  }

  /** No key outside the schema's fields is ever reported. */
  lemma UserUpdateReportsNoOtherKey(p: UserUpdatePayload, f: FieldName)
    requires f !in {Name, Mail, Password, PasswordConfirm, Scopes}
    ensures !Reports(UserUpdateErrors(p), Key(f))
  {
    UserUpdateReportsAt(p, Key(f));
  }

  /** passwords_match reports a mismatch on UserUpdate exactly in the cases UpdateMismatch names. */
  lemma UserUpdateMismatch(p: UserUpdatePayload)
    ensures MismatchReported(UserUpdateErrors(p)) <==> UpdateMismatch(p)
  {
    UserUpdateHas(p, PasswordConfirm, PasswordsDoNotMatch);
    UserUpdateConfirmation(p);
  }

  /** A confirmation left out is never compared. */
  lemma UserUpdateConfirmationLeftOut(p: UserUpdatePayload)
    requires p.passwordConfirm.Absent?
    ensures !MismatchReported(UserUpdateErrors(p))
  {
    UserUpdateMismatch(p);
  }

  /** Equal passwords, both given, both null or both left out, never meet the mismatch error. */
  lemma UserUpdateEqualPasswords(p: UserUpdatePayload)
    requires p.password == p.passwordConfirm
    ensures !MismatchReported(UserUpdateErrors(p))
  {
    UserUpdateMismatch(p);
  }

  /**
   * A confirmation sent without a password is compared with the password's
   * default, None, and is reported as a mismatch.
   */
  lemma UserUpdateConfirmationWithoutPassword(p: UserUpdatePayload)
    requires !p.password.Given?
    requires p.passwordConfirm.Given? && |p.passwordConfirm.value| <= TextLength
    ensures MismatchReported(UserUpdateErrors(p))
    ensures ValidateUserUpdate(p).Invalid?
  {
    UserUpdateMismatch(p);
  }

  /**
   * A password sent without a confirmation is never compared: the update is
   * accepted exactly when the other fields meet their own rules, and then
   * holds the payload as sent.
   */
  lemma UserUpdatePasswordWithoutConfirmation(p: UserUpdatePayload)
    requires p.passwordConfirm.Absent? && p.password.Given?
    ensures !MismatchReported(UserUpdateErrors(p))
    ensures ValidateUserUpdate(p).Valid? <==>
      && WithinIfGiven(p.name, NameLength)
      && WithinIfGiven(p.mail, TextLength) && (p.mail.Given? ==> MailPattern(p.mail.value))
      && |p.password.value| <= TextLength
      && (p.scopes.Given? ==> AllStrOk(ShortText, p.scopes.value))
    ensures ValidateUserUpdate(p).Valid? ==> UpdateKept(ValidateUserUpdate(p).value, p)
  {
    UserUpdateConfirmationLeftOut(p);
  }

  /** The mail rule on UserUpdate, for a mail that is sent: the same bound and pattern as on UserCreate. */
  lemma UserUpdateMailRule(p: UserUpdatePayload)
    requires p.mail.Given?
    ensures |p.mail.value| > TextLength ==> FieldError([Key(Mail)], TooLong(TextLength)) in UserUpdateErrors(p)
    ensures |p.mail.value| <= TextLength && !MailPattern(p.mail.value)
      ==> FieldError([Key(Mail)], PatternMismatch) in UserUpdateErrors(p)
    ensures !Reports(UserUpdateErrors(p), Key(Mail)) <==> |p.mail.value| <= TextLength && MailPattern(p.mail.value)
  {
    UserUpdateReportsMail(p);
    UserUpdateHas(p, Mail, TooLong(TextLength));
    UserUpdateHas(p, Mail, PatternMismatch);
  }

  // ===== UserQuery =====

  /** The filters of a user search; only mail carries a rule. */
  datatype UserQuery = UserQuery(
    id: Field<int>, name: Field<string>, mail: Field<string>, isGoogle: Field<bool>, isActive: Field<bool>,
    created: Field<Timestamp>, updated: Field<Timestamp>, lastLogin: Field<Timestamp>)

  /** A query is rejected only for a mail outside the pattern, and then with that one error. */
  function ValidateUserQuery(q: UserQuery): (r: Checked<UserQuery>)
    ensures r.Valid? <==> (q.mail.Given? ==> MailPattern(q.mail.value))
    ensures r.Valid? ==> r.value == q
    ensures r.Invalid? ==> r.errors == [FieldError([Key(Mail)], PatternMismatch)]
  {
    var mail := OptionalStr(MailFilter, q.mail);
    var errs := Collect(Mail, mail, []);
    if mail.Invalid? then CollectFailure<Field<string>>(Mail, PatternMismatch, []); Invalid(errs)
    else Valid(q)
  }

  /** A sample mail in the pattern with 251 characters: 125 letters, '@', 125 letters. */
  function LongMail(): (s: string)
    ensures |s| == TextLength + 1 && MailPattern(s)
  {
    var s := seq(TextLength + 1, i => if i == 125 then '@' else 'a');
    assert s[125] == '@' && NoAt(s[..125]) && NoAt(s[126..]);
    s
  }

  /**
   * The length bound on mail belongs to the write schemas only: a well-formed
   * mail of 251 characters is rejected as too long by UserCreate and
   * UserUpdate and accepted as a UserQuery filter.
   */
  lemma MailLengthBoundsWritesOnly(create: UserCreatePayload, update: UserUpdatePayload, query: UserQuery)
    requires create.mail == update.mail == query.mail == Given(LongMail())
    ensures FieldError([Key(Mail)], TooLong(TextLength)) in UserCreateErrors(create)
    ensures FieldError([Key(Mail)], TooLong(TextLength)) in UserUpdateErrors(update)
    ensures ValidateUserQuery(query).Valid?
  {
    UserCreateMailRule(create);
    UserUpdateMailRule(update);
  }
}
