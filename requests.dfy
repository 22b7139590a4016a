/**
 * The inbound schemas: the Create, Update and Query models a request body is
 * validated against before it reaches persistence, and the item models
 * (ore efficiencies, relation references) nested inside them.
 *
 * Each validator takes a payload whose fields may be absent, null or given,
 * and yields either the validated record or every field error, in
 * declaration order. Each schema comes with a declarative reference: a
 * predicate per field saying whether that field meets its rule, and their
 * conjunction. The validator accepts exactly the payloads the conjunction
 * holds for, and a companion lemma shows it reports an error under the key
 * of exactly the fields whose rule is broken.
 *
 * Fields whose type carries no constraint and that may be left out
 * (Optional[int], Optional[str], Optional[datetime], Optional[float],
 * Optional[bool]) can never fail once type coercion is set aside, so they
 * are carried through unchecked.
 */
module Requests {
  import opened MailAddress
  import opened Validation

  /** A field that must be given, with at most n characters. */
  predicate GivenWithin(f: Field<string>, n: nat) {
    f.Given? && |f.value| <= n
  }

  /** A field that, when given, has at most n characters. */
  predicate WithinIfGiven(f: Field<string>, n: nat) {
    f.Given? ==> |f.value| <= n
  }

  // ===== Related: {id, name}, the items of users_invited =====

  datatype RelatedPayload = RelatedPayload(id: Field<int>, name: Field<string>)
  datatype Related = Related(id: int, name: string)

  predicate RelatedFieldOk(p: RelatedPayload, f: FieldName) {
    if f == Id then p.id.Given?
    else if f == Name then p.name.Given?
    else true
  }

  predicate RelatedAccepts(p: RelatedPayload) {
    p.id.Given? && p.name.Given?
  }

  function ValidateRelated(p: RelatedPayload): (r: Checked<Related>)
    ensures r.Valid? <==> RelatedAccepts(p)
    ensures r.Valid? ==> r.value == Related(p.id.value, p.name.value)
  {
    var id := Require(p.id);
    var name := Require(p.name);
    var errs := Collect(Id, id, Collect(Name, name, []));
    if errs == [] then Valid(Related(id.value, name.value)) else Invalid(errs)
  }

  lemma RelatedReportsViolations(p: RelatedPayload, f: FieldName)
    ensures Reports(Errors(ValidateRelated(p)), Key(f)) <==> !RelatedFieldOk(p, f)
  {
    var id := Require(p.id);
    var name := Require(p.name);
    var e2 := Collect(Name, name, []);
    CollectReports(Id, id, e2, Key(f));
    CollectReports(Name, name, [], Key(f));
    assert Errors(ValidateRelated(p)) == Collect(Id, id, e2);
  }

  /** Every item of a users_invited list is sent, not null, and a valid reference. */
  predicate AllRelatedAccepted(items: seq<Option<RelatedPayload>>) {
    forall i | 0 <= i < |items| :: items[i].Some? && RelatedAccepts(items[i].value)
  }

  // ===== StationOreEfficiency =====

  datatype StationOreEfficiencyPayload =
    StationOreEfficiencyPayload(efficiencyBonus: Field<real>, oreId: Field<int>, oreName: Field<string>)

  datatype StationOreEfficiency =
    StationOreEfficiency(efficiencyBonus: real, oreId: int, oreName: Field<string>)

  predicate StationOreEfficiencyFieldOk(p: StationOreEfficiencyPayload, f: FieldName) {
    if f == EfficiencyBonus then p.efficiencyBonus.Given?
    else if f == OreId then p.oreId.Given?
    else true
  }

  predicate StationOreEfficiencyAccepts(p: StationOreEfficiencyPayload) {
    p.efficiencyBonus.Given? && p.oreId.Given?
  }

  /** efficiency_bonus and ore_id are required; ore_name is optional and unconstrained. */
  function ValidateStationOreEfficiency(p: StationOreEfficiencyPayload): (r: Checked<StationOreEfficiency>)
    ensures r.Valid? <==> StationOreEfficiencyAccepts(p)
    ensures r.Valid? ==> r.value == StationOreEfficiency(p.efficiencyBonus.value, p.oreId.value, p.oreName)
  {
    var bonus := Require(p.efficiencyBonus);
    var oreId := Require(p.oreId);
    var errs := Collect(EfficiencyBonus, bonus, Collect(OreId, oreId, []));
    if errs == [] then Valid(StationOreEfficiency(bonus.value, oreId.value, p.oreName)) else Invalid(errs)
  }

  lemma StationOreEfficiencyReportsViolations(p: StationOreEfficiencyPayload, f: FieldName)
    ensures Reports(Errors(ValidateStationOreEfficiency(p)), Key(f)) <==> !StationOreEfficiencyFieldOk(p, f)
  {
    var bonus := Require(p.efficiencyBonus);
    var oreId := Require(p.oreId);
    var e2 := Collect(OreId, oreId, []);
    CollectReports(EfficiencyBonus, bonus, e2, Key(f));
    CollectReports(OreId, oreId, [], Key(f));
    assert Errors(ValidateStationOreEfficiency(p)) == Collect(EfficiencyBonus, bonus, e2);
  }

  /** Every item of a station's efficiency list is sent, not null, and valid. */
  predicate AllStationOreEfficienciesAccepted(items: seq<Option<StationOreEfficiencyPayload>>) {
    forall i | 0 <= i < |items| :: items[i].Some? && StationOreEfficiencyAccepts(items[i].value)
  }

  // ===== MethodOreEfficiency =====

  datatype MethodOreEfficiencyPayload =
    MethodOreEfficiencyPayload(efficiency: Field<real>, duration: Field<real>, oreId: Field<int>, oreName: Field<string>)

  datatype MethodOreEfficiency =
    MethodOreEfficiency(efficiency: real, duration: real, oreId: int, oreName: Field<string>)

  /** An efficiency is a ratio in (0, 1]; a duration is strictly positive. */
  predicate MethodOreEfficiencyFieldOk(p: MethodOreEfficiencyPayload, f: FieldName) {
    if f == Efficiency then p.efficiency.Given? && 0.0 < p.efficiency.value <= 1.0
    else if f == Duration then p.duration.Given? && p.duration.value > 0.0
    else if f == OreId then p.oreId.Given?
    else true
  }

  predicate MethodOreEfficiencyAccepts(p: MethodOreEfficiencyPayload) {
    && p.efficiency.Given? && 0.0 < p.efficiency.value <= 1.0
    && p.duration.Given? && p.duration.value > 0.0
    && p.oreId.Given?
  }

  /** efficiency is confloat(gt=0, le=1), duration is confloat(gt=0), ore_id is required. */
  function ValidateMethodOreEfficiency(p: MethodOreEfficiencyPayload): (r: Checked<MethodOreEfficiency>)
    ensures r.Valid? <==> MethodOreEfficiencyAccepts(p)
    ensures r.Valid? ==> r.value == MethodOreEfficiency(p.efficiency.value, p.duration.value, p.oreId.value, p.oreName)
  {
    var efficiency := RequiredFloat(RatioRule, p.efficiency);
    var duration := RequiredFloat(PositiveRule, p.duration);
    var oreId := Require(p.oreId);
    var errs := Collect(Efficiency, efficiency, Collect(Duration, duration, Collect(OreId, oreId, [])));
    if errs == [] then Valid(MethodOreEfficiency(efficiency.value, duration.value, oreId.value, p.oreName))
    else Invalid(errs)
  }

  lemma MethodOreEfficiencyReportsViolations(p: MethodOreEfficiencyPayload, f: FieldName)
    ensures Reports(Errors(ValidateMethodOreEfficiency(p)), Key(f)) <==> !MethodOreEfficiencyFieldOk(p, f)
  {
    var efficiency := RequiredFloat(RatioRule, p.efficiency);
    var duration := RequiredFloat(PositiveRule, p.duration);
    var oreId := Require(p.oreId);
    var e3 := Collect(OreId, oreId, []);
    var e2 := Collect(Duration, duration, e3);
    CollectReports(Efficiency, efficiency, e2, Key(f));
    CollectReports(Duration, duration, e3, Key(f));
    CollectReports(OreId, oreId, [], Key(f));
    assert Errors(ValidateMethodOreEfficiency(p)) == Collect(Efficiency, efficiency, e2);
  }

  /** An efficiency of 0 or less is reported under the efficiency key as not greater than 0. */
  lemma MethodOreEfficiencyLocatesRangeError(p: MethodOreEfficiencyPayload)
    requires p.efficiency.Given? && p.efficiency.value <= 0.0
    ensures FieldError([Key(Efficiency)], NotGreaterThan(0.0)) in Errors(ValidateMethodOreEfficiency(p))
  {
    var efficiency := RequiredFloat(RatioRule, p.efficiency);
    var duration := RequiredFloat(PositiveRule, p.duration);
    var oreId := Require(p.oreId);
    CollectKeepsOwn(Efficiency, efficiency, Collect(Duration, duration, Collect(OreId, oreId, [])), NotGreaterThan(0.0));
  }

  /** The payload that sends every field of a validated efficiency back as given. */
  function MethodOreEfficiencyPayloadOf(m: MethodOreEfficiency): MethodOreEfficiencyPayload {
    MethodOreEfficiencyPayload(Given(m.efficiency), Given(m.duration), Given(m.oreId), m.oreName)
  }

  /** A validated efficiency sent back as a payload validates to itself. */
  lemma MethodOreEfficiencyRoundTrip(p: MethodOreEfficiencyPayload)
    requires ValidateMethodOreEfficiency(p).Valid?
    ensures var m := ValidateMethodOreEfficiency(p).value;
      ValidateMethodOreEfficiency(MethodOreEfficiencyPayloadOf(m)) == Valid(m)
  {
    var m := ValidateMethodOreEfficiency(p).value;
    assert MethodOreEfficiencyAccepts(MethodOreEfficiencyPayloadOf(m));
  }

  /** The range rules at their boundaries: 0 and 1.5 are rejected, 1 is accepted, a zero duration is rejected. */
  lemma EfficiencyBoundaries(oreId: int)
    ensures ValidateMethodOreEfficiency(MethodOreEfficiencyPayload(Given(0.0), Given(1.0), Given(oreId), Absent))
      == Invalid([FieldError([Key(Efficiency)], NotGreaterThan(0.0))])
    ensures ValidateMethodOreEfficiency(MethodOreEfficiencyPayload(Given(1.0), Given(1.0), Given(oreId), Absent))
      == Valid(MethodOreEfficiency(1.0, 1.0, oreId, Absent))
    ensures ValidateMethodOreEfficiency(MethodOreEfficiencyPayload(Given(1.5), Given(1.0), Given(oreId), Absent))
      == Invalid([FieldError([Key(Efficiency)], NotAtMost(1.0))])
    ensures ValidateMethodOreEfficiency(MethodOreEfficiencyPayload(Given(0.5), Given(0.0), Given(oreId), Absent))
      == Invalid([FieldError([Key(Duration)], NotGreaterThan(0.0))])
  {
    CollectFailure<real>(Efficiency, NotGreaterThan(0.0), []);
    CollectFailure<real>(Efficiency, NotAtMost(1.0), []);
    CollectFailure<real>(Duration, NotGreaterThan(0.0), []);
  }

  /** Every item of a method's efficiency list is sent, not null, and within its ranges. */
  predicate AllMethodOreEfficienciesAccepted(items: seq<Option<MethodOreEfficiencyPayload>>) {
    forall i | 0 <= i < |items| :: items[i].Some? && MethodOreEfficiencyAccepts(items[i].value)
  }
}
