/**
 * The catalogue schemas: OreCreate and OreUpdate, and the station and
 * method schemas, which pair a name with a list of ore efficiencies.
 *
 * StationCreate and MethodCreate share one shape, a required name of at most
 * 50 characters and a required list of items; StationUpdate and
 * MethodUpdate share the same shape with both fields optional. Each shape
 * is validated once, generically in the item check, and the four schemas
 * are its instances with the station or the method efficiency check.
 */
module CatalogRequests {
  import opened Validation
  import opened Requests

  // ===== OreCreate, OreUpdate =====

  datatype OreCreatePayload = OreCreatePayload(name: Field<string>)
  datatype OreCreate = OreCreate(name: string)

  /** OreCreate: a required name of at most 50 characters, with the one error pydantic raises otherwise. */
  function ValidateOreCreate(p: OreCreatePayload): (r: Checked<OreCreate>)
    ensures r.Valid? <==> GivenWithin(p.name, NameLength)
    ensures r.Valid? ==> r.value == OreCreate(p.name.value)
    ensures p.name.Absent? ==> r == Invalid([FieldError([Key(Name)], Missing)])
    ensures p.name.Null? ==> r == Invalid([FieldError([Key(Name)], NoneNotAllowed)])
    ensures p.name.Given? && |p.name.value| > NameLength ==> r == Invalid([FieldError([Key(Name)], TooLong(NameLength))])
  {
    var name := RequiredStr(ShortText, p.name);
    if name.Valid? then Valid(OreCreate(name.value))
    else
      var kind := name.errors[0].kind;
      assert name == Fail(kind);
      CollectFailure<string>(Name, kind, []);
      Invalid(Collect(Name, name, []))
  }

  /** An update of an ore; the validated update is the payload itself. */
  datatype OreUpdate = OreUpdate(name: Field<string>)

  /** OreUpdate: a name left out or null passes; a given one must be within 50 characters. */
  function ValidateOreUpdate(p: OreUpdate): (r: Checked<OreUpdate>)
    ensures r.Valid? <==> WithinIfGiven(p.name, NameLength)
    ensures r.Valid? ==> r.value == p
    ensures r.Invalid? ==> r.errors == [FieldError([Key(Name)], TooLong(NameLength))]
  {
    var name := OptionalStr(ShortText, p.name);
    if name.Valid? then Valid(p)
    else
      CollectFailure<Field<string>>(Name, TooLong(NameLength), []);
      Invalid(Collect(Name, name, []))
  }

  // ===== A name and a list of efficiencies: StationCreate, MethodCreate =====

  /** A create as sent: each item of the list is a value or null. */
  datatype EfficienciesCreatePayload<P> = EfficienciesCreatePayload(name: Field<string>, efficiencies: Field<seq<Option<P>>>)
  datatype EfficienciesCreate<T> = EfficienciesCreate(name: string, efficiencies: seq<T>)

  /** The rule of a create: a name within 50 characters and a list sent, whose every item is sent and passes the item check. */
  predicate EfficienciesCreateAccepts<P, T>(p: EfficienciesCreatePayload<P>, check: P -> Checked<T>) {
    GivenWithin(p.name, NameLength) && p.efficiencies.Given? && AllSentValid(p.efficiencies.value, check)
  }

  /** The errors of a create: the name's, then the list's, each item's errors under its position. */
  function EfficienciesCreateErrors<P, T>(p: EfficienciesCreatePayload<P>, check: P -> Checked<T>): (errs: seq<FieldError>)
    ensures errs == [] <==> EfficienciesCreateAccepts(p, check)
  {
    Collect(Name, RequiredStr(ShortText, p.name), Collect(Efficiencies, RequiredItems(p.efficiencies, check), []))
  }

  /** A create with no error validates to its name and, position by position, the values its items validated to. */
  function ValidateEfficienciesCreate<P, T>(p: EfficienciesCreatePayload<P>, check: P -> Checked<T>)
    : (r: Checked<EfficienciesCreate<T>>)
    ensures r.Valid? <==> EfficienciesCreateAccepts(p, check)
    ensures r.Valid? ==> r.value.name == p.name.value && SentValues(r.value.efficiencies, p.efficiencies.value, check)
    ensures r.Invalid? ==> r.errors == EfficienciesCreateErrors(p, check)
  {
    var errs := EfficienciesCreateErrors(p, check);
    if errs == [] then Valid(EfficienciesCreate(p.name.value, RequiredItems(p.efficiencies, check).value))
    else Invalid(errs)
  }

  /** A create reports under name exactly when the name breaks its rule, under efficiencies exactly when the list does, and nowhere else. */
  lemma EfficienciesCreateReportsViolations<P, T>(p: EfficienciesCreatePayload<P>, check: P -> Checked<T>, f: FieldName)
    ensures Reports(EfficienciesCreateErrors(p, check), Key(f)) <==>
      || (f == Name && !GivenWithin(p.name, NameLength))
      || (f == Efficiencies && !(p.efficiencies.Given? && AllSentValid(p.efficiencies.value, check)))
  {
    var name := RequiredStr(ShortText, p.name);
    var items := RequiredItems(p.efficiencies, check);
    CollectReports(Name, name, Collect(Efficiencies, items, []), Key(f));
    CollectReports(Efficiencies, items, [], Key(f));
  }

  /** Under efficiencies, a create reports exactly the positions of the items that are null or fail their check. */
  lemma EfficienciesCreateReportsItems<P, T>(p: EfficienciesCreatePayload<P>, check: P -> Checked<T>, at: LocPart)
    ensures Reports(ErrorsAt(EfficienciesCreateErrors(p, check), Key(Efficiencies)), at) <==>
      p.efficiencies.Given? && at.Index? && at.index < |p.efficiencies.value| && ItemFails(check, p.efficiencies.value[at.index])
  {
    var name := RequiredStr(ShortText, p.name);
    var items := RequiredItems(p.efficiencies, check);
    var rest := Collect(Efficiencies, items, []);
    CollectErrorsAt(Name, name, rest, Key(Efficiencies));
    CollectErrorsAt(Efficiencies, items, [], Key(Efficiencies));
    assert ErrorsAt(EfficienciesCreateErrors(p, check), Key(Efficiencies)) == Errors(items);
    ItemsReportedAt(p.efficiencies, check, Errors(items), at);
  }

  /** The name rule of a create: over 50 characters it is rejected as too long, within 50 it is not reported. */
  lemma EfficienciesCreateNameRule<P, T>(p: EfficienciesCreatePayload<P>, check: P -> Checked<T>)
    requires p.name.Given?
    ensures |p.name.value| > NameLength ==> FieldError([Key(Name)], TooLong(NameLength)) in EfficienciesCreateErrors(p, check)
    ensures |p.name.value| <= NameLength ==> !Reports(EfficienciesCreateErrors(p, check), Key(Name))
  {
    var name := RequiredStr(ShortText, p.name);
    var rest := Collect(Efficiencies, RequiredItems(p.efficiencies, check), []);
    CollectReports(Name, name, rest, Key(Name));
    CollectReports(Efficiencies, RequiredItems(p.efficiencies, check), [], Key(Name));
    if |p.name.value| > NameLength {
      CollectKeepsOwn(Name, name, rest, TooLong(NameLength));
    }
  }

  /** Every error of a sent item of a create that fails appears under efficiencies, at the item's position. */
  lemma EfficienciesCreateKeepsItemErrors<P, T>(p: EfficienciesCreatePayload<P>, check: P -> Checked<T>, i: nat, e: FieldError)
    requires p.efficiencies.Given? && i < |p.efficiencies.value| && p.efficiencies.value[i].Some?
    requires e in Errors(check(p.efficiencies.value[i].value))
    ensures FieldError([Key(Efficiencies), Index(i)] + e.loc, e.kind) in EfficienciesCreateErrors(p, check)
  {
    NonNullApplied(check, p.efficiencies.value[i]);
    CheckItemsKeepsItemErrors(p.efficiencies.value, NonNull(check), i, e);
    var items := RequiredItems(p.efficiencies, check);
    CollectKeepsNested(Efficiencies, items, [], FieldError([Index(i)] + e.loc, e.kind));
    assert [Key(Efficiencies)] + ([Index(i)] + e.loc) == [Key(Efficiencies), Index(i)] + e.loc;
  }

  /** A null item of a create is reported at efficiencies, its position, as none-not-allowed. */
  lemma EfficienciesCreateNullItem<P, T>(p: EfficienciesCreatePayload<P>, check: P -> Checked<T>, i: nat)
    requires p.efficiencies.Given? && i < |p.efficiencies.value| && p.efficiencies.value[i].None?
    ensures FieldError([Key(Efficiencies), Index(i)], NoneNotAllowed) in EfficienciesCreateErrors(p, check)
  {
    NullItemReported(p.efficiencies.value, check, i);
    var items := RequiredItems(p.efficiencies, check);
    CollectKeepsNested(Efficiencies, items, [], FieldError([Index(i)], NoneNotAllowed));
    assert [Key(Efficiencies)] + [Index(i)] == [Key(Efficiencies), Index(i)];
  }

  // ===== The same shape with both fields optional: StationUpdate, MethodUpdate =====

  /** An update as sent: both fields may be left out, and each item of a sent list is a value or null. */
  datatype EfficienciesUpdatePayload<P> = EfficienciesUpdatePayload(name: Field<string>, efficiencies: Field<seq<Option<P>>>)
  datatype EfficienciesUpdate<T> = EfficienciesUpdate(name: Field<string>, efficiencies: Field<seq<T>>)

  /** The rule of an update: a name, when given, within 50 characters; a list, when given, whose every item is sent and passes. */
  predicate EfficienciesUpdateAccepts<P, T>(p: EfficienciesUpdatePayload<P>, check: P -> Checked<T>) {
    WithinIfGiven(p.name, NameLength) && (p.efficiencies.Given? ==> AllSentValid(p.efficiencies.value, check))
  }

  function EfficienciesUpdateErrors<P, T>(p: EfficienciesUpdatePayload<P>, check: P -> Checked<T>): (errs: seq<FieldError>)
    ensures errs == [] <==> EfficienciesUpdateAccepts(p, check)
  {
    Collect(Name, OptionalStr(ShortText, p.name), Collect(Efficiencies, OptionalItems(p.efficiencies, check), []))
  }

  /**
   * An update with no error keeps its name as sent and its list's state: left
   * out stays left out, null stays null, and a given list holds the values its
   * items validated to.
   */
  function ValidateEfficienciesUpdate<P, T>(p: EfficienciesUpdatePayload<P>, check: P -> Checked<T>)
    : (r: Checked<EfficienciesUpdate<T>>)
    ensures r.Valid? <==> EfficienciesUpdateAccepts(p, check)
    ensures r.Valid? ==> r.value.name == p.name
    ensures r.Valid? ==> (r.value.efficiencies.Absent? <==> p.efficiencies.Absent?)
    ensures r.Valid? ==> (r.value.efficiencies.Null? <==> p.efficiencies.Null?)
    ensures r.Valid? && p.efficiencies.Given? ==>
      r.value.efficiencies.Given? && SentValues(r.value.efficiencies.value, p.efficiencies.value, check)
    ensures r.Invalid? ==> r.errors == EfficienciesUpdateErrors(p, check)
  {
    var errs := EfficienciesUpdateErrors(p, check);
    if errs == [] then Valid(EfficienciesUpdate(p.name, OptionalItems(p.efficiencies, check).value))
    else Invalid(errs)
  }

  lemma EfficienciesUpdateReportsViolations<P, T>(p: EfficienciesUpdatePayload<P>, check: P -> Checked<T>, f: FieldName)
    ensures Reports(EfficienciesUpdateErrors(p, check), Key(f)) <==>
      || (f == Name && !WithinIfGiven(p.name, NameLength))
      || (f == Efficiencies && !(p.efficiencies.Given? ==> AllSentValid(p.efficiencies.value, check)))
  {
    var name := OptionalStr(ShortText, p.name);
    var items := OptionalItems(p.efficiencies, check);
    CollectReports(Name, name, Collect(Efficiencies, items, []), Key(f));
    CollectReports(Efficiencies, items, [], Key(f));
  }

  /** Under efficiencies, an update reports exactly the positions of the items that are null or fail their check. */
  lemma EfficienciesUpdateReportsItems<P, T>(p: EfficienciesUpdatePayload<P>, check: P -> Checked<T>, at: LocPart)
    ensures Reports(ErrorsAt(EfficienciesUpdateErrors(p, check), Key(Efficiencies)), at) <==>
      p.efficiencies.Given? && at.Index? && at.index < |p.efficiencies.value| && ItemFails(check, p.efficiencies.value[at.index])
  {
    var name := OptionalStr(ShortText, p.name);
    var items := OptionalItems(p.efficiencies, check);
    CollectErrorsAt(Name, name, Collect(Efficiencies, items, []), Key(Efficiencies));
    CollectErrorsAt(Efficiencies, items, [], Key(Efficiencies));
    assert ErrorsAt(EfficienciesUpdateErrors(p, check), Key(Efficiencies)) == Errors(items);
    ItemsReportedAt(p.efficiencies, check, Errors(items), at);
  }

  // ===== The four instances =====

  type StationCreatePayload = EfficienciesCreatePayload<StationOreEfficiencyPayload>
  type StationCreate = EfficienciesCreate<StationOreEfficiency>
  type MethodCreatePayload = EfficienciesCreatePayload<MethodOreEfficiencyPayload>
  type MethodCreate = EfficienciesCreate<MethodOreEfficiency>

  /** StationCreate: a name within 50 characters and a list of station efficiencies, each sent with its bonus and ore id. */
  function ValidateStationCreate(p: StationCreatePayload): (r: Checked<StationCreate>)
    ensures r.Valid? <==> && GivenWithin(p.name, NameLength) && p.efficiencies.Given?
                          && AllStationOreEfficienciesAccepted(p.efficiencies.value)
    ensures r.Valid? ==> r.value.name == p.name.value && |r.value.efficiencies| == |p.efficiencies.value|
    ensures r.Valid? ==> forall i | 0 <= i < |p.efficiencies.value| ::
      var item := p.efficiencies.value[i].value;
      r.value.efficiencies[i] == StationOreEfficiency(item.efficiencyBonus.value, item.oreId.value, item.oreName)
    ensures r.Invalid? ==> r.errors == EfficienciesCreateErrors(p, ValidateStationOreEfficiency)
  {
    ValidateEfficienciesCreate(p, ValidateStationOreEfficiency)
  }

  /** MethodCreate: a name within 50 characters and a list of method efficiencies, each sent and within its ranges. */
  function ValidateMethodCreate(p: MethodCreatePayload): (r: Checked<MethodCreate>)
    ensures r.Valid? <==> && GivenWithin(p.name, NameLength) && p.efficiencies.Given?
                          && AllMethodOreEfficienciesAccepted(p.efficiencies.value)
    ensures r.Valid? ==> r.value.name == p.name.value && |r.value.efficiencies| == |p.efficiencies.value|
    ensures r.Valid? ==> forall i | 0 <= i < |p.efficiencies.value| ::
      var item := p.efficiencies.value[i].value;
      r.value.efficiencies[i] == MethodOreEfficiency(item.efficiency.value, item.duration.value, item.oreId.value, item.oreName)
    ensures r.Invalid? ==> r.errors == EfficienciesCreateErrors(p, ValidateMethodOreEfficiency)
  {
    ValidateEfficienciesCreate(p, ValidateMethodOreEfficiency)
  }

  type StationUpdatePayload = EfficienciesUpdatePayload<StationOreEfficiencyPayload>
  type StationUpdate = EfficienciesUpdate<StationOreEfficiency>
  type MethodUpdatePayload = EfficienciesUpdatePayload<MethodOreEfficiencyPayload>
  type MethodUpdate = EfficienciesUpdate<MethodOreEfficiency>

  /** StationUpdate: both fields optional; a list, when sent, holds valid station efficiencies and no null. */
  function ValidateStationUpdate(p: StationUpdatePayload): (r: Checked<StationUpdate>)
    ensures r.Valid? <==> && WithinIfGiven(p.name, NameLength)
                          && (p.efficiencies.Given? ==> AllStationOreEfficienciesAccepted(p.efficiencies.value))
    ensures r.Valid? ==> r.value.name == p.name
    ensures r.Valid? ==> (r.value.efficiencies.Given? <==> p.efficiencies.Given?)
    ensures r.Valid? ==> (r.value.efficiencies.Null? <==> p.efficiencies.Null?)
    ensures r.Valid? && p.efficiencies.Given? ==> |r.value.efficiencies.value| == |p.efficiencies.value|
    ensures r.Valid? && p.efficiencies.Given? ==> forall i | 0 <= i < |p.efficiencies.value| ::
      var item := p.efficiencies.value[i].value;
      r.value.efficiencies.value[i] == StationOreEfficiency(item.efficiencyBonus.value, item.oreId.value, item.oreName)
    ensures r.Invalid? ==> r.errors == EfficienciesUpdateErrors(p, ValidateStationOreEfficiency)
  {
    ValidateEfficienciesUpdate(p, ValidateStationOreEfficiency)
  }

  /** MethodUpdate: both fields optional; a list, when sent, holds method efficiencies within their ranges and no null. */
  function ValidateMethodUpdate(p: MethodUpdatePayload): (r: Checked<MethodUpdate>)
    ensures r.Valid? <==> && WithinIfGiven(p.name, NameLength)
                          && (p.efficiencies.Given? ==> AllMethodOreEfficienciesAccepted(p.efficiencies.value))
    ensures r.Valid? ==> r.value.name == p.name
    ensures r.Valid? ==> (r.value.efficiencies.Given? <==> p.efficiencies.Given?)
    ensures r.Valid? ==> (r.value.efficiencies.Null? <==> p.efficiencies.Null?)
    ensures r.Valid? && p.efficiencies.Given? ==> |r.value.efficiencies.value| == |p.efficiencies.value|
    ensures r.Valid? && p.efficiencies.Given? ==> forall i | 0 <= i < |p.efficiencies.value| ::
      var item := p.efficiencies.value[i].value;
      r.value.efficiencies.value[i] == MethodOreEfficiency(item.efficiency.value, item.duration.value, item.oreId.value, item.oreName)
    ensures r.Invalid? ==> r.errors == EfficienciesUpdateErrors(p, ValidateMethodOreEfficiency)
  {
    ValidateEfficienciesUpdate(p, ValidateMethodOreEfficiency)
  }

  /**
   * An efficiency of 0 or less in the i-th item of a MethodCreate is reported
   * at efficiencies, position i, efficiency, as not greater than 0.
   */
  lemma MethodCreateLocatesRangeError(p: MethodCreatePayload, i: nat)
    requires p.efficiencies.Given? && i < |p.efficiencies.value| && p.efficiencies.value[i].Some?
    requires p.efficiencies.value[i].value.efficiency.Given? && p.efficiencies.value[i].value.efficiency.value <= 0.0
    ensures FieldError([Key(Efficiencies), Index(i), Key(Efficiency)], NotGreaterThan(0.0))
      in EfficienciesCreateErrors(p, ValidateMethodOreEfficiency)
  {
    var item := p.efficiencies.value[i].value;
    var e := FieldError([Key(Efficiency)], NotGreaterThan(0.0));
    MethodOreEfficiencyLocatesRangeError(item);
    assert e in Errors(ValidateMethodOreEfficiency(item));
    EfficienciesCreateKeepsItemErrors(p, ValidateMethodOreEfficiency, i, e);
    assert [Key(Efficiencies), Index(i)] + [Key(Efficiency)] == [Key(Efficiencies), Index(i), Key(Efficiency)];
  }
}
