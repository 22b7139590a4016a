/**
 * Field-level validation shared by every schema: the three states of an
 * inbound field, the error list a failed validation yields, the constrained
 * string and float types, and the checking of list-valued fields.
 *
 * Fields are checked in declaration order and every failure is kept, so a
 * payload yields either its validated record or all of its field errors.
 */
module Validation {
  import opened MailAddress

  datatype Option<+T> = None | Some(value: T)

  /** An inbound field: left out of the payload, sent as an explicit null, or sent with a value. */
  datatype Field<+T> = Absent | Null | Given(value: T)

  /** What an optional field holds once parsed: an absent field and a null both read as None. */
  function AsOption<T>(f: Field<T>): (r: Option<T>)
    ensures r.Some? <==> f.Given?
    ensures f.Given? ==> r.value == f.value
  {
    if f.Given? then Some(f.value) else None
  }

  /** A timestamp is opaque to the schemas: stored and copied, never computed on. */
  datatype Timestamp = Timestamp(ticks: int)

  /** Every field name the schemas declare. */
  datatype FieldName =
    | Id | Name | Mail | Password | PasswordConfirm | IsGoogle | IsActive | Scopes
    | Created | Updated | LastLogin | Efficiencies | EfficiencyBonus | Efficiency
    | Duration | OreId | OreName | CreatorId | Archived | YieldScu | YieldUec
    | UsersInvited | UserId | UserName | FriendId | FriendName | Confirmed

  /** One step of an error location: a field of a model, or a position in a list. */
  datatype LocPart = Key(field: FieldName) | Index(index: nat)

  datatype ErrorKind =
    | Missing                      // a required field left out
    | NoneNotAllowed               // a required field sent as null
    | TooLong(maxLength: nat)      // constr(max_length=...)
    | PatternMismatch              // constr(regex=...)
    | NotGreaterThan(limit: real)  // confloat(gt=...)
    | NotAtMost(limit: real)       // confloat(le=...)
    | PasswordsDoNotMatch          // the passwords_match validator

  datatype FieldError = FieldError(loc: seq<LocPart>, kind: ErrorKind)

  /** A failed validation reports at least one error. */
  type ErrorList = errs: seq<FieldError> | errs != [] witness [FieldError([], Missing)]

  /** The outcome of validating one value: the validated value, or its errors. */
  datatype Checked<+T> = Valid(value: T) | Invalid(errors: ErrorList)

  function Errors<T>(c: Checked<T>): (errs: seq<FieldError>)
    ensures errs == [] <==> c.Valid?
  {
    if c.Valid? then [] else c.errors
  }

  /** Errors moved under a location prefix, as a nested field or a list item reports them. */
  function Nest(prefix: seq<LocPart>, errs: seq<FieldError>): (r: seq<FieldError>)
    ensures |r| == |errs|
  {
    if errs == [] then [] else [FieldError(prefix + errs[0].loc, errs[0].kind)] + Nest(prefix, errs[1..])
  }

  /** The errors an error list reports under location step `at`, with that step taken off. */
  function ErrorsAt(errs: seq<FieldError>, at: LocPart): seq<FieldError>
  {
    if errs == [] then []
    else
      (if errs[0].loc != [] && errs[0].loc[0] == at then [FieldError(errs[0].loc[1..], errs[0].kind)] else [])
      + ErrorsAt(errs[1..], at)
  }

  lemma {:induction false} ErrorsAtConcat(a: seq<FieldError>, b: seq<FieldError>, at: LocPart)
    ensures ErrorsAt(a + b, at) == ErrorsAt(a, at) + ErrorsAt(b, at)
  {
    if a == [] {
      assert a + b == b;
    } else {
      assert (a + b)[0] == a[0];
      assert (a + b)[1..] == a[1..] + b;
      ErrorsAtConcat(a[1..], b, at);
    }
  }

  lemma {:induction false} ErrorsAtNest(at: LocPart, errs: seq<FieldError>, other: LocPart)
    ensures ErrorsAt(Nest([at], errs), other) == if other == at then errs else []
  {
    if errs != [] {
      var nested := Nest([at], errs);
      assert nested[0].loc[1..] == errs[0].loc;
      assert nested[1..] == Nest([at], errs[1..]);
      ErrorsAtNest(at, errs[1..], other);
      if other == at {
        assert errs == [errs[0]] + errs[1..];
      }
    }
  }

  /** An error located exactly at `at` is in the list when its kind is among what the list reports there. */
  lemma {:induction false} InErrorsAt(errs: seq<FieldError>, at: LocPart, kind: ErrorKind)
    ensures FieldError([at], kind) in errs <==> FieldError([], kind) in ErrorsAt(errs, at)
  {
    if errs != [] {
      InErrorsAt(errs[1..], at, kind);
      assert errs == [errs[0]] + errs[1..];
      if errs[0].loc == [at] {
        assert errs[0].loc[1..] == [];
      }
      if errs[0].loc != [] && errs[0].loc[0] == at && errs[0].loc[1..] == [] {
        assert errs[0].loc == [at] + errs[0].loc[1..];
      }
    }
  }

  /** The i-th nested error is the i-th error under the prefix. */
  lemma {:induction false} NestAt(prefix: seq<LocPart>, errs: seq<FieldError>, i: nat)
    requires i < |errs|
    ensures Nest(prefix, errs)[i] == FieldError(prefix + errs[i].loc, errs[i].kind)
  {
    if i > 0 {
      NestAt(prefix, errs[1..], i - 1);
    }
  }

  /** Some error is reported under location step `at`. */
  predicate Reports(errs: seq<FieldError>, at: LocPart) {
    exists i | 0 <= i < |errs| :: errs[i].loc != [] && errs[i].loc[0] == at
  }

  /** Something is reported under `at` exactly when the errors under `at` are not empty. */
  lemma {:induction false} ReportsErrorsAt(errs: seq<FieldError>, at: LocPart)
    ensures Reports(errs, at) <==> ErrorsAt(errs, at) != []
  {
    if errs != [] {
      ReportsErrorsAt(errs[1..], at);
      if Reports(errs[1..], at) {
        var i :| 0 <= i < |errs[1..]| && errs[1..][i].loc != [] && errs[1..][i].loc[0] == at;
        assert errs[i + 1] == errs[1..][i];
      }
      if Reports(errs, at) && !(errs[0].loc != [] && errs[0].loc[0] == at) {
        var i :| 0 <= i < |errs| && errs[i].loc != [] && errs[i].loc[0] == at;
        assert errs[1..][i - 1] == errs[i];
      }
    }
  }

  /** The errors of field f, located under its key, followed by the errors of the fields after it. */
  function Collect<T>(f: FieldName, c: Checked<T>, rest: seq<FieldError>): (r: seq<FieldError>)
    ensures r == [] <==> c.Valid? && rest == []
  {
    Nest([Key(f)], Errors(c)) + rest
  }

  /** Under `at`, a collected list reports field f's own errors when `at` is f's key, then what the rest reports. */
  lemma CollectErrorsAt<T>(f: FieldName, c: Checked<T>, rest: seq<FieldError>, at: LocPart)
    ensures ErrorsAt(Collect(f, c, rest), at) == (if at == Key(f) then Errors(c) else []) + ErrorsAt(rest, at)
  {
    ErrorsAtConcat(Nest([Key(f)], Errors(c)), rest, at);
    ErrorsAtNest(Key(f), Errors(c), at);
  }

  /** A collected list reports under `at` exactly when field f failed and `at` is its key, or the rest reports there. */
  lemma CollectReports<T>(f: FieldName, c: Checked<T>, rest: seq<FieldError>, at: LocPart)
    ensures Reports(Collect(f, c, rest), at) <==> (at == Key(f) && c.Invalid?) || Reports(rest, at)
  {
    CollectErrorsAt(f, c, rest, at);
    ReportsErrorsAt(Collect(f, c, rest), at);
    ReportsErrorsAt(rest, at);
  }

  /** An error located exactly at field g's key is in a collected list when f is g and raised it, or the rest holds it. */
  lemma CollectHas<T>(f: FieldName, c: Checked<T>, rest: seq<FieldError>, g: FieldName, kind: ErrorKind)
    ensures FieldError([Key(g)], kind) in Collect(f, c, rest)
      <==> (g == f && FieldError([], kind) in Errors(c)) || FieldError([Key(g)], kind) in rest
  {
    CollectErrorsAt(f, c, rest, Key(g));
    InErrorsAt(Collect(f, c, rest), Key(g), kind);
    InErrorsAt(rest, Key(g), kind);
  }

  /** An error field f's own check raised appears in the collected list under f's key. */
  lemma CollectKeepsOwn<T>(f: FieldName, c: Checked<T>, rest: seq<FieldError>, kind: ErrorKind)
    requires FieldError([], kind) in Errors(c)
    ensures FieldError([Key(f)], kind) in Collect(f, c, rest)
  {
    CollectKeepsNested(f, c, rest, FieldError([], kind));
    assert [Key(f)] + [] == [Key(f)];
  }

  /** Every error of field f's outcome appears in the collected list, under f's key. */
  lemma CollectKeepsNested<T>(f: FieldName, c: Checked<T>, rest: seq<FieldError>, e: FieldError)
    requires e in Errors(c)
    ensures FieldError([Key(f)] + e.loc, e.kind) in Collect(f, c, rest)
  {
    var i :| 0 <= i < |Errors(c)| && Errors(c)[i] == e;
    NestAt([Key(f)], Errors(c), i);
    assert Collect(f, c, rest)[i] == FieldError([Key(f)] + e.loc, e.kind);
  }

  /** A field whose own check failed with one error contributes exactly that error, under its key. */
  lemma CollectFailure<T>(f: FieldName, kind: ErrorKind, rest: seq<FieldError>)
    ensures Collect(f, Fail<T>(kind), rest) == [FieldError([Key(f)], kind)] + rest
  {
    var errs := [FieldError([], kind)];
    assert errs[1..] == [];
    assert [Key(f)] + errs[0].loc == [Key(f)];
  }

  /** A cross-field error, as opposed to a value failing its own field's constraint. */
  predicate CrossField(k: ErrorKind) {
    k.PasswordsDoNotMatch?
  }

  /** An error raised by a value's own check: not yet located. */
  function Fail<T>(kind: ErrorKind): (r: Checked<T>)
    ensures r.Invalid? && r.errors == [FieldError([], kind)]
  {
    Invalid([FieldError([], kind)])
  }

  // ----- Constrained strings: constr(max_length=..., regex=...) -----

  datatype StrRule = StrRule(maxLength: Option<nat>, mailPattern: bool)

  const NameLength: nat := 50
  const TextLength: nat := 250

  /** constr(max_length=50) */
  const ShortText := StrRule(Some(NameLength), false)
  /** constr(max_length=250) */
  const LongText := StrRule(Some(TextLength), false)
  /** constr(max_length=250, regex=r"^[^@]+@[^@]+$") */
  const MailText := StrRule(Some(TextLength), true)
  /** constr(regex=r"^[^@]+@[^@]+$"), with no length bound */
  const MailFilter := StrRule(None, true)

  predicate StrOk(rule: StrRule, s: string) {
    && (rule.maxLength.Some? ==> |s| <= rule.maxLength.value)
    && (rule.mailPattern ==> MailPattern(s))
  }

  /**
   * The constrained-string check: the length bound first, then the pattern;
   * the first failure is the only one reported for the value.
   */
  function CheckStr(rule: StrRule, s: string): (r: Checked<string>)
    ensures r.Valid? <==> StrOk(rule, s)
    ensures r.Valid? ==> r.value == s
    ensures r.Invalid? ==> |r.errors| == 1 && r.errors[0].loc == []
    ensures rule.maxLength.Some? && |s| > rule.maxLength.value ==> r == Fail(TooLong(rule.maxLength.value))
    ensures (rule.maxLength.None? || |s| <= rule.maxLength.value) && rule.mailPattern && !MailPattern(s)
      ==> r == Fail(PatternMismatch)
  {
    if rule.maxLength.Some? && |s| > rule.maxLength.value then Fail(TooLong(rule.maxLength.value))
    else if rule.mailPattern && !MailPattern(s) then Fail(PatternMismatch)
    else Valid(s)
  }

  // ----- Constrained floats: confloat(gt=..., le=...) -----

  datatype FloatRule = FloatRule(greaterThan: Option<real>, atMost: Option<real>)

  /** confloat(gt=0, le=1) */
  const RatioRule := FloatRule(Some(0.0), Some(1.0))
  /** confloat(gt=0) */
  const PositiveRule := FloatRule(Some(0.0), None)

  predicate FloatOk(rule: FloatRule, x: real) {
    && (rule.greaterThan.Some? ==> x > rule.greaterThan.value)
    && (rule.atMost.Some? ==> x <= rule.atMost.value)
  }

  /** The constrained-float check: the exclusive lower bound first, then the inclusive upper bound. */
  function CheckFloat(rule: FloatRule, x: real): (r: Checked<real>)
    ensures r.Valid? <==> FloatOk(rule, x)
    ensures r.Valid? ==> r.value == x
    ensures r.Invalid? ==> |r.errors| == 1 && r.errors[0].loc == []
    ensures rule.greaterThan.Some? && x <= rule.greaterThan.value ==> r == Fail(NotGreaterThan(rule.greaterThan.value))
    ensures (rule.greaterThan.None? || x > rule.greaterThan.value) && rule.atMost.Some? && x > rule.atMost.value
      ==> r == Fail(NotAtMost(rule.atMost.value))
  {
    if rule.greaterThan.Some? && !(x > rule.greaterThan.value) then Fail(NotGreaterThan(rule.greaterThan.value))
    else if rule.atMost.Some? && !(x <= rule.atMost.value) then Fail(NotAtMost(rule.atMost.value))
    else Valid(x)
  }

  // ----- Required and optional fields -----

  /** A required field of an unconstrained type: present and not null. */
  function Require<T>(f: Field<T>): (r: Checked<T>)
    ensures r.Valid? <==> f.Given?
    ensures r.Valid? ==> r.value == f.value
    ensures f.Absent? ==> r == Fail(Missing)
    ensures f.Null? ==> r == Fail(NoneNotAllowed)
  {
    match f
    case Absent => Fail(Missing)
    case Null => Fail(NoneNotAllowed)
    case Given(v) => Valid(v)
  }

  /** A required constrained string: present, not null, and within its rule. */
  function RequiredStr(rule: StrRule, f: Field<string>): (r: Checked<string>)
    ensures r.Valid? <==> f.Given? && StrOk(rule, f.value)
    ensures r.Valid? ==> r.value == f.value
    ensures f.Given? ==> r == CheckStr(rule, f.value)
    ensures r.Invalid? ==> |r.errors| == 1 && r.errors[0].loc == [] && !CrossField(r.errors[0].kind)
  {
    if f.Given? then CheckStr(rule, f.value) else Require(f)
  }

  /** An optional constrained string: absent and null pass unchecked, a given value is checked. */
  function OptionalStr(rule: StrRule, f: Field<string>): (r: Checked<Field<string>>)
    ensures r.Valid? <==> (f.Given? ==> StrOk(rule, f.value))
    ensures r.Valid? ==> r.value == f
    ensures f.Given? && r.Invalid? ==> r.errors == CheckStr(rule, f.value).errors
    ensures r.Invalid? ==> |r.errors| == 1 && r.errors[0].loc == [] && !CrossField(r.errors[0].kind)
  {
    if f.Given? then
      var c := CheckStr(rule, f.value);
      if c.Valid? then Valid(f) else Invalid(c.errors)
    else Valid(f)
  }

  /** A required constrained float. */
  function RequiredFloat(rule: FloatRule, f: Field<real>): (r: Checked<real>)
    ensures r.Valid? <==> f.Given? && FloatOk(rule, f.value)
    ensures r.Valid? ==> r.value == f.value
    ensures f.Given? ==> r == CheckFloat(rule, f.value)
  {
    if f.Given? then CheckFloat(rule, f.value) else Require(f)
  }


  // ----- List-valued fields -----

  /** Every item of the list passes the check. */
  predicate AllValid<P, T>(items: seq<P>, check: P -> Checked<T>)
    decreases |items|
  {
    items == [] || (AllValid(items[..|items| - 1], check) && check(items[|items| - 1]).Valid?)
  }

  lemma {:induction false} AllValidEach<P, T>(items: seq<P>, check: P -> Checked<T>)
    ensures AllValid(items, check) <==> forall i | 0 <= i < |items| :: check(items[i]).Valid?
    decreases |items|
  {
    if items != [] {
      var n := |items| - 1;
      AllValidEach(items[..n], check);
      assert forall i | 0 <= i < n :: items[..n][i] == items[i];
    }
  }

  /**
   * Every item of a list checked in order; the list is valid when every item
   * is, and each failing item's errors are located under its position.
   */
  function CheckItems<P, T>(items: seq<P>, check: P -> Checked<T>): (r: Checked<seq<T>>)
    ensures r.Valid? <==> AllValid(items, check)
    ensures r.Valid? ==> |r.value| == |items|
    decreases |items|
  {
    if items == [] then Valid([])
    else
      var n := |items| - 1;
      var init := CheckItems(items[..n], check);
      var last := check(items[n]);
      if init.Valid? && last.Valid? then Valid(init.value + [last.value])
      else Invalid(Errors(init) + Nest([Index(n)], Errors(last)))
  }

  /** A valid list holds, at each position, the value its item validated to. */
  lemma {:induction false} CheckItemsValues<P, T>(items: seq<P>, check: P -> Checked<T>, i: nat)
    requires CheckItems(items, check).Valid? && i < |items|
    ensures check(items[i]) == Valid(CheckItems(items, check).value[i])
    decreases |items|
  {
    var n := |items| - 1;
    if i < n {
      CheckItemsValues(items[..n], check, i);
    }
  }

  /** A valid list holds, position by position, the values its items validated to. */
  lemma CheckItemsAllValues<P, T>(items: seq<P>, check: P -> Checked<T>)
    requires CheckItems(items, check).Valid?
    ensures var values := CheckItems(items, check).value;
      forall i | 0 <= i < |items| :: check(items[i]) == Valid(values[i])
  {
    forall i | 0 <= i < |items| ensures check(items[i]) == Valid(CheckItems(items, check).value[i]) {
      CheckItemsValues(items, check, i);
    }
  }

  /** Every error of a failing item appears in the list's errors, under the item's position. */
  lemma {:induction false} CheckItemsKeepsItemErrors<P, T>(items: seq<P>, check: P -> Checked<T>, i: nat, e: FieldError)
    requires i < |items| && e in Errors(check(items[i]))
    ensures FieldError([Index(i)] + e.loc, e.kind) in Errors(CheckItems(items, check))
    decreases |items|
  {
    var n := |items| - 1;
    var init := CheckItems(items[..n], check);
    var last := check(items[n]);
    var x := FieldError([Index(i)] + e.loc, e.kind);
    if i == n {
      assert last.Invalid?;
      var j :| 0 <= j < |Errors(last)| && Errors(last)[j] == e;
      NestAt([Index(n)], Errors(last), j);
      assert x in Nest([Index(n)], Errors(last));
    } else {
      assert items[..n][i] == items[i];
      CheckItemsKeepsItemErrors(items[..n], check, i, e);
      assert x in Errors(init);
    }
    assert CheckItems(items, check) == Invalid(Errors(init) + Nest([Index(n)], Errors(last)));
  }

  /** Every failing item is reported at its position, and no other location is. */
  lemma {:induction false} CheckItemsReportsEachItem<P, T>(items: seq<P>, check: P -> Checked<T>, at: LocPart)
    ensures Reports(Errors(CheckItems(items, check)), at)
      <==> at.Index? && at.index < |items| && check(items[at.index]).Invalid?
    decreases |items|
  {
    if items != [] {
      var n := |items| - 1;
      var init := CheckItems(items[..n], check);
      var last := check(items[n]);
      CheckItemsReportsEachItem(items[..n], check, at);
      var failing := at.Index? && at.index < |items| && check(items[at.index]).Invalid?;
      var failingInit := at.Index? && at.index < n && check(items[..n][at.index]).Invalid?;
      assert failing <==> failingInit || (at == Index(n) && last.Invalid?) by {
        if at.Index? && at.index < n {
          assert items[..n][at.index] == items[at.index];
        }
      }
      if init.Invalid? || last.Invalid? {
        var errs := Errors(init) + Nest([Index(n)], Errors(last));
        assert Errors(CheckItems(items, check)) == errs;
        ErrorsAtConcat(Errors(init), Nest([Index(n)], Errors(last)), at);
        ErrorsAtNest(Index(n), Errors(last), at);
        assert ErrorsAt(errs, at) == ErrorsAt(Errors(init), at) + (if at == Index(n) then Errors(last) else []);
        ReportsErrorsAt(errs, at);
        ReportsErrorsAt(Errors(init), at);
      } else {
        assert Errors(CheckItems(items, check)) == [];
      }
    }
  }

  // ----- The items of a List[X] field: each sent as a value or as null -----

  /**
   * The check of one item of a List[X] field. An item arrives as a value or
   * as null (None); X is never Optional in these schemas, so a null item
   * fails as none-not-allowed before X's own check is reached.
   */
  function NonNull<P, T>(check: P -> Checked<T>): Option<P> -> Checked<T> {
    (item: Option<P>) => if item.Some? then check(item.value) else Fail(NoneNotAllowed)
  }

  /** A null item fails as none-not-allowed; a sent one meets the item check. */
  lemma NonNullApplied<P, T>(check: P -> Checked<T>, item: Option<P>)
    ensures NonNull(check)(item) == if item.Some? then check(item.value) else Fail(NoneNotAllowed)
  {
  }

  /** Every item was sent as a value, and that value passes the check. */
  predicate AllSentValid<P, T>(items: seq<Option<P>>, check: P -> Checked<T>) {
    forall i | 0 <= i < |items| :: items[i].Some? && check(items[i].value).Valid?
  }

  /** An item that is null, or whose value fails the check. */
  predicate ItemFails<P, T>(check: P -> Checked<T>, item: Option<P>) {
    item.None? || check(item.value).Invalid?
  }

  /** The values of a validated list, one per sent item: the value that item validated to. */
  ghost predicate SentValues<P, T>(values: seq<T>, items: seq<Option<P>>, check: P -> Checked<T>) {
    |values| == |items| && forall i | 0 <= i < |items| :: items[i].Some? && check(items[i].value) == Valid(values[i])
  }

  /** A list checked item by item, nulls refused, is valid exactly when every item was sent and is valid. */
  lemma AllValidNonNull<P, T>(items: seq<Option<P>>, check: P -> Checked<T>)
    ensures AllValid(items, NonNull(check)) <==> AllSentValid(items, check)
  {
    AllValidEach(items, NonNull(check));
    forall i | 0 <= i < |items| ensures NonNull(check)(items[i]).Valid? <==> items[i].Some? && check(items[i].value).Valid? {
      NonNullApplied(check, items[i]);
    }
  }

  /** A valid list, nulls refused, holds the value each sent item validated to. */
  lemma CheckItemsSentValues<P, T>(items: seq<Option<P>>, check: P -> Checked<T>)
    requires CheckItems(items, NonNull(check)).Valid?
    ensures SentValues(CheckItems(items, NonNull(check)).value, items, check)
  {
    var values := CheckItems(items, NonNull(check)).value;
    CheckItemsAllValues(items, NonNull(check));
    forall i | 0 <= i < |items| ensures items[i].Some? && check(items[i].value) == Valid(values[i]) {
      NonNullApplied(check, items[i]);
    }
  }

  /** A null item is reported at its position as none-not-allowed. */
  lemma NullItemReported<P, T>(items: seq<Option<P>>, check: P -> Checked<T>, i: nat)
    requires i < |items| && items[i].None?
    ensures FieldError([Index(i)], NoneNotAllowed) in Errors(CheckItems(items, NonNull(check)))
  {
    NonNullApplied(check, items[i]);
    CheckItemsKeepsItemErrors(items, NonNull(check), i, FieldError([], NoneNotAllowed));
    assert [Index(i)] + [] == [Index(i)];
  }

  /** A required list field, List[X]: present, not null, and every item sent and valid. */
  function RequiredItems<P, T>(f: Field<seq<Option<P>>>, check: P -> Checked<T>): (r: Checked<seq<T>>)
    ensures r.Valid? <==> f.Given? && AllSentValid(f.value, check)
    ensures r.Valid? ==> SentValues(r.value, f.value, check)
    ensures f.Given? ==> r == CheckItems(f.value, NonNull(check))
    ensures f.Absent? ==> r == Fail(Missing)
    ensures f.Null? ==> r == Fail(NoneNotAllowed)
  {
    match f
    case Absent => Fail(Missing)
    case Null => Fail(NoneNotAllowed)
    case Given(items) =>
      AllValidNonNull(items, check);
      var c := CheckItems(items, NonNull(check));
      if c.Valid? then CheckItemsSentValues(items, check); c else c
  }

  /** An optional list field, Optional[List[X]]: absent and null pass as they are, a sent list has every item checked. */
  function OptionalItems<P, T>(f: Field<seq<Option<P>>>, check: P -> Checked<T>): (r: Checked<Field<seq<T>>>)
    ensures r.Valid? <==> (f.Given? ==> AllSentValid(f.value, check))
    ensures r.Valid? ==> (r.value.Absent? <==> f.Absent?) && (r.value.Null? <==> f.Null?)
    ensures r.Valid? && f.Given? ==> r.value.Given? && SentValues(r.value.value, f.value, check)
    ensures f.Given? ==> Errors(r) == Errors(CheckItems(f.value, NonNull(check)))
  {
    match f
    case Absent => Valid(Absent)
    case Null => Valid(Null)
    case Given(items) =>
      AllValidNonNull(items, check);
      var c := CheckItems(items, NonNull(check));
      if c.Valid? then CheckItemsSentValues(items, check); Valid(Given(c.value)) else Invalid(c.errors)
  }

  /** A list field reports, under each position, exactly the items that are null or fail; a missing or null list reports no position. */
  lemma ItemsReportedAt<P, T>(f: Field<seq<Option<P>>>, check: P -> Checked<T>, errs: seq<FieldError>, at: LocPart)
    requires f.Given? ==> errs == Errors(CheckItems(f.value, NonNull(check)))
    requires !f.Given? ==> forall i | 0 <= i < |errs| :: errs[i].loc == []
    ensures Reports(errs, at) <==> f.Given? && at.Index? && at.index < |f.value| && ItemFails(check, f.value[at.index])
  {
    if f.Given? {
      CheckItemsReportsEachItem(f.value, NonNull(check), at);
      if at.Index? && at.index < |f.value| {
        NonNullApplied(check, f.value[at.index]);
      }
    } else {
      NoLocationReportsNothing(errs, at);
    }
  }

  lemma {:induction false} NoLocationReportsNothing(errs: seq<FieldError>, at: LocPart)
    requires forall i | 0 <= i < |errs| :: errs[i].loc == []
    ensures ErrorsAt(errs, at) == []
  {
    if errs != [] {
      NoLocationReportsNothing(errs[1..], at);
    }
  }

  // ----- Lists of constrained strings: List[constr(max_length=...)] -----

  /** The check of one string of a list of constrained strings. */
  function StrCheck(rule: StrRule): string -> Checked<string> {
    (s: string) => CheckStr(rule, s)
  }

  /** Every string of the list was sent, not null, and is within the rule. */
  predicate AllStrOk(rule: StrRule, xs: seq<Option<string>>) {
    forall i | 0 <= i < |xs| :: xs[i].Some? && StrOk(rule, xs[i].value)
  }

  /** A validated optional list keeps the field's state, and a sent list holds the sent values in order. */
  ghost predicate KeptItems<T>(r: Field<seq<T>>, f: Field<seq<Option<T>>>) {
    && (r.Absent? <==> f.Absent?) && (r.Null? <==> f.Null?)
    && (r.Given? ==> f.Given? && |r.value| == |f.value| && forall i | 0 <= i < |f.value| :: f.value[i] == Some(r.value[i]))
  }

  /**
   * Checking a list of constrained strings accepts exactly the lists whose
   * every string is sent and within the rule, and gives back the sent strings.
   */
  lemma CheckStrItemsExact(rule: StrRule, xs: seq<Option<string>>)
    ensures var r := CheckItems(xs, NonNull(StrCheck(rule)));
      && (r.Valid? <==> AllStrOk(rule, xs))
      && (r.Valid? ==> |r.value| == |xs| && forall i | 0 <= i < |xs| :: xs[i] == Some(r.value[i]))
  {
    AllValidNonNull(xs, StrCheck(rule));
    var r := CheckItems(xs, NonNull(StrCheck(rule)));
    if r.Valid? {
      CheckItemsSentValues(xs, StrCheck(rule));
    }
  }

  /** An optional list of constrained strings: absent and null pass, a sent list must have every string sent and within the rule. */
  function OptionalStrItems(rule: StrRule, f: Field<seq<Option<string>>>): (r: Checked<Field<seq<string>>>)
    ensures r.Valid? <==> (f.Given? ==> AllStrOk(rule, f.value))
    ensures r.Valid? ==> KeptItems(r.value, f)
    ensures f.Given? ==> Errors(r) == Errors(CheckItems(f.value, NonNull(StrCheck(rule))))
  {
    if f.Given? then CheckStrItemsExact(rule, f.value); OptionalItems(f, StrCheck(rule))
    else OptionalItems(f, StrCheck(rule))
  }
}
